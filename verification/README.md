# OMR-POC decision core in Dafny

This project models the deterministic core of the OMR-POC optical-mark-reader system. That system scans paper answer sheets for a school enrolment form, reads the shaded bubbles, stores the result, and serves it to a web back office. The model covers:

- **Grid builders.** From a few calibrated anchor pixels, they compute the centre of every bubble. This covers the answer grids (`build_subject_grid` in its three copies), the student name, birth and flag grids, and the current-school and previous-school digit grids. It also covers the page normalisation and pill geometry of the stand-alone answer script.
- **Auto-calibration.** Each subject gets an ink floor: numpy's interpolated percentile of a filtered sample of pill scores, clamped below by a global floor. The geometric script and the contour script calibrate differently.
- **Decision policies.** Each maps the fill scores of one question or column to an outcome:
  - NOISE / BLANK / OK / REVIEW in the geometric script;
  - BLANK / REVIEW / OK in the contour script;
  - the marked-choice and review rule of the live answer reader;
  - `decide_selection`, `read_column` and `read_single_column` in the student and school readers.
- **Field aggregation.** Column decisions are joined into names, days, years, school ids, final grades, class sizes and school years, each with a mean confidence and a review flag.
- **Review-flag aggregation** before a scan is persisted, and the per-question rows written for it.
- **The web code's pure rules:**
  - the answer-sheet service's parameter defaults, pagination arithmetic, sort mapping and per-subject grouping with scores;
  - the frontend's avatar colour and initials;
  - the frontend's two route guards.

Modelling conventions:

- **Measurements are inputs.** A bubble's fill score enters as an exact `real`. Where the source counts pixels itself, the count is over a given boolean matrix (`Bitmap`).
- **Python numerics are written out** (`Numeric`):
  - `int(x)` truncates toward zero;
  - `round(x)` rounds half to even;
  - `round(x, n)` rounds half to even at the n-th decimal of the exact value.
- **Dicts are ordered lists.** A Python dict or JSON object is a list of key/value pairs, because its insertion order decides ties (`Ranking`):
  - `max(d, key=d.get)` is the first maximum;
  - `sorted(..., reverse=True)` is a stable descending sort.
- **Error paths are values.** A missing image (`ValueError`), a malformed JSON section and an unparseable question number are `Failure` results (`Wrappers`), not preconditions.

Modules follow the source tree:

| module | source |
|---|---|
| `PageLayout`, `Bitmap`, `ScriptReader`, `Calibration` | `omr-server/overlay_test.py`, `omr-server/read_answers.py` |
| `BkReader`, `Calibration` | `omr-server/bk.py` |
| `AnswerGrid`, `AnswerDetect`, `FakeAnswers` | `omr-server/answers/` |
| `StudentGrid`, `StudentRead` | `omr-server/student/` |
| `CurrentGrid`, `CurrentRead` | `omr-server/school/current/` |
| `PreviousGrid`, `PreviousRead` | `omr-server/school/previous/` |
| `Persist` | `omr-server/db/persist_scan.py` |
| `AnswerSheet` | `be-omr-demo/src/answer-sheet/answer-sheet.service.ts` |
| `Frontend` | `fe-omr-demo/lib/utils.ts`, `fe-omr-demo/proxy.ts`, `fe-omr-demo/middleware.ts` |
| `Numeric`, `Ranking`, `Text`, `Geometry`, `Wrappers` | the Python and JavaScript built-ins these rely on |

## Model

| member | source | states |
|---|---|---|
| Numeric.Trunc | omr-server/school/previous/prev_overlay_test.py:103 | `int(x)`: the integer between x and zero that is less than one away from x |
| Numeric.RoundHalfEven | omr-server/student/overlay_test.py:149 | `round(x)`: an integer at most one half away, the even one on a tie |
| Numeric.RoundHalfEvenOfInt | omr-server/student/overlay_test.py:149 | rounding an integer gives it back |
| Numeric.RoundHalfEvenMonotone | omr-server/student/overlay_test.py:149 | rounding never reverses the order of two reals |
| Numeric.RoundToClose | omr-server/school/current/curr_read_info.py:109 | `round(x, n)` (`Numeric.RoundTo`, round half to even at n places) lies within half a unit of the n-th place of x |
| Numeric.RoundToMonotone | omr-server/school/current/curr_read_info.py:109 | `round(x, n)` never reverses the order of two reals |
| Numeric.RoundToIdempotent | omr-server/read_answers.py:183 | rounding a rounded value again changes nothing (also line 99) |
| Numeric.RoundToUnit | omr-server/read_answers.py:99 | a ratio in [0, 1] still lies in [0, 1] after rounding |
| Numeric.RoundToKeepsGridLowerBound | omr-server/school/current/curr_read_info.py:215-231 | a value at or above a threshold with n places stays at or above it after rounding to n places |
| Numeric.RoundToDifference | omr-server/read_answers.py:183 | the difference of two values already on the n-place grid is on it too |
| Numeric.SumLowerBound | omr-server/school/current/curr_read_info.py:215 | a sum of values all at least lo is at least their count times lo |
| Numeric.MeanBounds | omr-server/school/current/curr_read_info.py:215 | a mean lies between the least and greatest bound of its values |
| Numeric.MeanAtLeast | omr-server/school/previous/prev_read_info.py:115 | a mean of values all at least lo is at least lo |
| Ranking.MaxScore | omr-server/school/previous/prev_read_info.py:60-61 | the greatest score, attained by some entry |
| Ranking.ArgMaxFirst | omr-server/school/previous/prev_read_info.py:60 | `max(d, key=d.get)`: the first entry with the greatest score |
| Ranking.SecondScore | omr-server/read_answers.py:178-182 | the greatest score once the first maximal entry is removed, never above the maximum |
| Ranking.SecondScoreBounds | omr-server/read_answers.py:178-182 | every other entry scores at most the second score, and one attains it |
| Ranking.SortDesc | omr-server/read_answers.py:178 | `sorted(..., reverse=True)`: a descending permutation of the entries |
| Ranking.SortDescHead | omr-server/read_answers.py:178-180 | the stable sort puts the first maximal entry first |
| Ranking.SortDescPositions | omr-server/read_answers.py:178-182 | after sorting, the head is the first maximal entry, the second the second score and the last the least score |
| Ranking.SortDescTop | omr-server/school/current/curr_read_info.py:73-76 | the head and runner-up of the sorted list are the first maximal entry and the second score |
| Ranking.SecondOrZero | omr-server/school/current/curr_read_info.py:74-76 | the runner-up score, 0 when there is a single entry |
| Text.NatToString | omr-server/student/read_student_info.py:237 | a non-empty string of digits with no leading zero |
| Text.ParseNat | omr-server/db/persist_scan.py:230 | `int(s)` on non-negative decimals: a value iff s is a non-empty run of digits |
| Text.DigitsValueOfNatToString | omr-server/student/read_student_info.py:237 | reading back the decimal form of n gives n |
| Text.ParseNatToString | omr-server/db/persist_scan.py:230 | parsing the decimal form of n gives n |
| Text.NatToStringInjective | omr-server/student/read_student_info.py:237 | different numbers have different decimal forms |
| Text.ZeroPad2 | omr-server/student/read_student_info.py:237 | `f"{n:02d}"`: two characters below ten, the plain form otherwise, parsing back to n |
| Text.StripSlice | omr-server/student/read_student_info.py:116 | `str.strip()` (`Text.Strip`) returns a slice whose cut-off ends are all whitespace and which neither starts nor ends with whitespace, whitespace being Python's `str.isspace` set (tab to carriage return, the four information separators, space, NEL, no-break space and the Unicode space, line and paragraph separators) |
| Text.StripCuts | omr-server/student/read_student_info.py:116 | the cut points of `str.strip()`: the result is the slice between them, and every character before the first and from the second on is whitespace |
| Text.StripEnds | omr-server/student/read_student_info.py:116 | a non-empty result of `str.strip()` neither starts nor ends with whitespace |
| Text.StripSeparator | omr-server/student/read_student_info.py:116 | a leading information separator (U+001C) is stripped, as Python's `str.isspace` counts it as whitespace |
| Text.StripNoBreakSpace | omr-server/student/read_student_info.py:116 | a trailing no-break space (U+00A0) is stripped |
| Text.StripOfTrimmed | omr-server/student/read_student_info.py:116 | stripping a string with no outer whitespace leaves it unchanged |
| Text.Lower | be-omr-demo/src/answer-sheet/answer-sheet.service.ts:31 | `toLowerCase` on ASCII: the same length, letters A..Z lowered, everything else kept |
| Text.UpperCharCases | fe-omr-demo/lib/utils.ts:11 | upper-casing lands in A..Z exactly for ASCII letters, and ignores a prior lower-casing |
| PageLayout.ArgMinIndex | omr-server/overlay_test.py:74-76 | `np.argmin`: the returned position holds a smallest value and every earlier position holds a strictly larger one (first minimum on ties) |
| PageLayout.ArgMaxIndex | omr-server/overlay_test.py:75-77 | `np.argmax`: the returned position holds a largest value and every earlier one a strictly smaller one (first maximum on ties) |
| PageLayout.OrderCorners | omr-server/overlay_test.py:66-77 | the four chosen corners are points of the contour; corner 0 has the least and corner 2 the greatest `x + y`, corner 1 the least and corner 3 the greatest `y - x` |
| PageLayout.OrderCornersOfRectangle | omr-server/overlay_test.py:66-77 | the corners of an axis-aligned page, supplied in any order, come out top-left, top-right, bottom-right, bottom-left |
| PageLayout.OrderSameCorners | omr-server/overlay_test.py:66-77 | the same ordering holds whenever the contour and the rectangle have the same corner points |
| PageLayout.CornerByExtremes | omr-server/overlay_test.py:72-77 | on a rectangle the extreme sums and differences single out each corner uniquely |
| PageLayout.OrderCornersOfDiamond | omr-server/overlay_test.py:72-77 | a page turned 45 degrees has two minimal sums/differences at one point: the same source point becomes both top-left and top-right |
| PageLayout.DestCornersOrdered | omr-server/overlay_test.py:79-84 | the destination rectangle is already in top-left, top-right, bottom-right, bottom-left order |
| PageLayout.NormalizePage | omr-server/overlay_test.py:46-88 | the output is always `out_w` by `out_h`; a perspective warp happens exactly when contours exist and the approximation has four points, otherwise a plain resize; the warp sends four contour points, the smallest and largest `x + y` and the smallest and largest `y - x` as corners 0, 2, 1 and 3, onto (0, 0), (w-1, 0), (w-1, h-1), (0, h-1) in that order |
| PageLayout.NormalizePageDefault | omr-server/overlay_test.py:11-46 | with the default size the page is 2550 by 3500 and a warp sends the top-left corner to (0, 0) and the bottom-right to (2549, 3499) |
| PageLayout.QuestionNumber | omr-server/overlay_test.py:123-130 | `block * 8 + q + 1` lies in 1..40 and recovers block and row by division and remainder |
| PageLayout.QuestionNumberOnto | omr-server/overlay_test.py:123-130 | every question 1..40 is produced by exactly the block `(n-1)/8` and row `(n-1)%8` |
| PageLayout.PillCentre | omr-server/overlay_test.py:124-136 | a pill centre is the anchor x plus block and choice offsets, and the subject anchor y plus `q * 49` (the row adjustment is 0) (also lines 15-16, 29-30) |
| PageLayout.PillBox | omr-server/overlay_test.py:150-155 | the drawn box is 30 wide and 28 high, centred on the pill |
| PageLayout.PillBoxesDisjoint | omr-server/overlay_test.py:123-158 | the boxes of any two distinct pills of the page, in one subject or two, do not overlap (also lines 15-39) |
| PageLayout.ColumnsApart | omr-server/overlay_test.py:15-20 | any two pill columns are more than a box width (30) apart |
| PageLayout.ConcatRowsOfFour | omr-server/overlay_test.py:124-136 | flattening rows of four pills gives four times as many, row r at positions 4r..4r+3 |
| PageLayout.RowPillsLayout | omr-server/overlay_test.py:127-136 | each of the 40 rows yields four pills labelled with its question number |
| PageLayout.SubjectPillsLayout | omr-server/overlay_test.py:123-136 | a subject's pills are 160, four per question 1..40 in question order, so the `> 40` guard never skips a row |
| Geometry.Steps | omr-server/school/previous/prev_overlay_test.py:99-110 | a row list has n entries, entry i being `int(base + i * spacing)` |
| Geometry.StepsIncreasing | omr-server/school/previous/prev_overlay_test.py:99-110 | with a non-negative start and a step of at least one pixel the truncated rows strictly increase |
| Geometry.StepEnds | omr-server/school/previous/prev_overlay_test.py:99-110 | interpolating from a top to a bottom calibration point reproduces both points exactly at the first and last row |
| Bitmap.SliceBound | omr-server/read_answers.py:91-96 | a NumPy slice bound counts from the end when negative and is clamped into `[0, n]` |
| Bitmap.PySlice | omr-server/read_answers.py:91-96 | a slice always lies within the array, equals the plain range when both bounds are in order, and is empty when they are reversed |
| Bitmap.CountExtremes | omr-server/read_answers.py:99 | `countNonZero` over a slice equals its area when every pixel is ink and 0 when none is |
| Bitmap.Ratio | omr-server/read_answers.py:92-99 | the ink ratio lies in [0, 1] and is 0 for an empty slice |
| Bitmap.RatioExtremes | omr-server/read_answers.py:99 | on a non-empty slice the ratio is exactly 1 iff every pixel is ink and exactly 0 iff none is |
| Bitmap.CountMissesOne | omr-server/read_answers.py:99 | one blank pixel keeps the count below the area |
| Bitmap.CountHitsOne | omr-server/read_answers.py:99 | one ink pixel makes the count positive |
| ScriptReader.PillFillRatio | omr-server/read_answers.py:82-104 | the fill ratio of a pill lies in [0, 1] whatever the centre, including centres near or past the image edge |
| ScriptReader.PillFillRatioInterior | omr-server/read_answers.py:85-99 | away from the edges the window is rows `cy-11..cy+11` and columns `cx-5..cx+12` (after the 30% letter strip), 22 by 17 = 374 pixels, and the ratio is their ink count over 374 rounded to four places |
| ScriptReader.LetterStripLeavesColumns | omr-server/read_answers.py:95-96 | dropping `int(0.30 * w)` columns of a non-empty window always leaves at least one |
| ScriptReader.Decide | omr-server/read_answers.py:178-197 | NOISE iff uniform and the best reaches the floor, BLANK iff not noise and the best is under the floor, OK iff the best dominates the runner-up 1.5 times and the rounded gap is at least 0.04; OK answers the first best label, REVIEW answers "MULTIPLE", NOISE and BLANK answer nothing |
| ScriptReader.SortedRatios | omr-server/read_answers.py:178-181 | positions 0, 1 and 3 of the stable descending sort are the first maximum, the runner-up score and the least score |
| ScriptReader.DecideConfidence | omr-server/read_answers.py:183 | the confidence is the best-minus-second gap rounded to four decimals, never negative |
| ScriptReader.NoiseNeedsOnlyUniform | omr-server/read_answers.py:184-186 | with a positive floor, "uniformly high" alone decides NOISE (the smallest score above three floors already reaches the floor) |
| ScriptReader.OkGapOnGrid | omr-server/read_answers.py:183-192 | for four-place scores an OK question has an exact gap of at least 0.04 and a 1.5-fold dominance |
| ScriptReader.GapOnGrid | omr-server/read_answers.py:183 | rounding a difference of four-place scores to four places changes nothing |
| ScriptReader.TieGoesToEarlierLabel | omr-server/read_answers.py:178-183 | on a tie for best the stable sort picks the earlier label and the confidence is 0 |
| ScriptReader.TieSecond | omr-server/read_answers.py:178-180 | on a tie for best the second score equals the best |
| ScriptReader.SubjectRatios | omr-server/read_answers.py:121-134 | a subject contributes one ratio in [0, 1] per visited pill |
| ScriptReader.QuestionScores | omr-server/read_answers.py:173-176 | a question's scores are its four ratios keyed A, B, C, D in that order |
| ScriptReader.QuestionScoresInSample | omr-server/read_answers.py:121-176 | the subject sample has 160 ratios, and the score of choice c of question n is entry `4n + c` of it |
| ScriptReader.ReadSubject | omr-server/read_answers.py:136-197 | a subject yields 40 outcomes, each the decision on the question's scores under the floor calibrated from the subject's own ratios |
| ScriptReader.ReadSubjectBlankBounds | omr-server/read_answers.py:137-189 | a best score under 0.04 is always BLANK and one of at least 0.15 never is, whatever the calibration |
| ScriptReader.ReadPage | omr-server/read_answers.py:163-213 | the page result has the five subjects in page order, each read with its own anchor |
| Calibration.SortAsc | omr-server/read_answers.py:145 | sorting (inside `np.percentile`) yields an ascending permutation of the sample |
| Calibration.SortedEnds | omr-server/read_answers.py:145 | the sorted sample starts with its minimum and ends with its maximum |
| Calibration.VirtualIndex | omr-server/read_answers.py:145 | the percentile position `p/100 * (n-1)` lies within the sample |
| Calibration.Lerp | omr-server/read_answers.py:145 | linear interpolation between two ordered neighbours stays between them |
| Calibration.SortedPercentile | omr-server/read_answers.py:145 | the percentile of a sorted sample lies between its first and last element |
| Calibration.PercentileBounds | omr-server/read_answers.py:145 | `np.percentile` (`Calibration.Percentile`, linear interpolation over the ascending sort) lies between the sample's minimum and maximum |
| Calibration.PercentileExtremes | omr-server/read_answers.py:145 | the 0th percentile is the minimum and the 100th the maximum |
| Calibration.Between | omr-server/read_answers.py:143 | the filtered sample holds every occurrence of each ratio strictly between the bounds, and nothing else |
| Calibration.BetweenConcat | omr-server/read_answers.py:143 | filtering distributes over concatenation and keeps a single value exactly when it lies between the bounds, so the kept ratios appear in their original order |
| Calibration.Positive | omr-server/bk.py:212 | the filtered sample holds every occurrence of each positive score, and nothing else |
| Calibration.PositiveConcat | omr-server/bk.py:212 | the positive filter distributes over concatenation and keeps a single value exactly when it is positive, so order is kept |
| Calibration.CalibratedFloor | omr-server/read_answers.py:144-148 | the floor is never below the global floor; with at most five samples it is the global floor, otherwise the larger of the percentile and the global floor |
| Calibration.ReadAnswersFloorRange | omr-server/read_answers.py:137-148 | the geometric script's floor lies in [0.04, 0.15) and is 0.04 when at most five ratios fall in (0, 0.15) |
| Calibration.BkFloorRange | omr-server/bk.py:210-217 | the contour script's floor is at least 0.010, exactly 0.010 with at most five positive scores, and otherwise at most the larger of the greatest score and 0.010 (also lines 23-25) |
| Calibration.BkFloorIgnoresZero | omr-server/bk.py:212 | an extra zero score does not move the contour script's floor |
| Calibration.PositiveAppendZero | omr-server/bk.py:212 | filtering ignores an appended zero |
| Calibration.BkFloorOfZeros | omr-server/bk.py:212-217 | a page of zero scores calibrates to the global floor 0.010 (also line 24) |
| BkReader.InnerWindow | omr-server/bk.py:195-201 | the inner window (pill box shrunk by 13 and 9 pixels) always lies within the image after NumPy's slice clamping (also lines 42-43) |
| BkReader.InnerWindowInterior | omr-server/bk.py:195-198 | away from the edges the inner window is 10 rows by 4 columns (also lines 42-43) |
| BkReader.MaskRows | omr-server/bk.py:107-111 | the mask rows `int(0.20h)..int(0.85h)` lie within the window |
| BkReader.MaskCols | omr-server/bk.py:107-111 | the mask columns `int(0.40w)..int(0.95w)` lie within the window |
| BkReader.Weight | omr-server/bk.py:145-151 | a kept contour's centre weight lies in [0, 1] |
| BkReader.WeightedArea | omr-server/bk.py:119-152 | the weighted area is non-negative and 0 when every contour is rejected by the area, border, elongation, moment or distance tests |
| BkReader.MaxKeptArea | omr-server/bk.py:125-152 | the evidently intended `max_area` is at least every kept contour's area and is 0 or one of them |
| BkReader.FillAsWritten | omr-server/bk.py:99-172 | as written, the "max" score is always 0 because `max_area` is never updated; the weighted score is non-negative |
| BkReader.FillCorrected | omr-server/bk.py:99-172 | with `max_area` tracking the largest kept contour, the "max" score is that area over the mask's pixels rounded to three places, the weighted score is unchanged, and a kept contour makes the area at least 12 |
| BkReader.MaxAreaDiscrepancy | omr-server/bk.py:119-172 | a 20 by 20 window with one centred area-30 contour that passes every filter scores "max" 0 as written but a positive "max" once `max_area` is tracked |
| BkReader.NarrowWindowKeepsNothing | omr-server/bk.py:107-136 | in a window at most 4 wide every contour touches the border test, so even the corrected reading is (0, 0) (also lines 42-43, 195-198) |
| BkReader.MinInkFor | omr-server/bk.py:260 | the floor is the subject's calibrated value, or 0.04 when it has none |
| BkReader.Decide | omr-server/bk.py:252-271 | BLANK iff the best "max" score is under the floor (no answer), REVIEW iff it reaches the floor but is under 1.15 times the runner-up ("MULTIPLE"), otherwise OK with the first best label |
| BkReader.DecideConfidence | omr-server/bk.py:253-258 | the confidence is the gap between the two best "max" scores rounded to three decimals, never negative |
| BkReader.QuestionMaxScores | omr-server/bk.py:236-252 | a question's scores are the "max" readings of its four pills keyed A to D |
| BkReader.MaxValues | omr-server/bk.py:202 | the calibration sample is the "max" reading of every pill, in visiting order |
| BkReader.ReadSubject | omr-server/bk.py:208-281 | a subject yields 40 outcomes, each decided on the question's "max" scores under the floor calibrated from all 160 of them |
| BkReader.EveryQuestionBlankAsWritten | omr-server/bk.py:252-263 | with the as-written zero "max" readings every question of every page is BLANK (also lines 120, 156, 172) |
| AnswerGrid.ChoiceLabel | omr-server/answers/read_answers.py:63-65 | `chr(ord('A') + j)` names the choices A, B, C, D |
| AnswerGrid.Layout | omr-server/answers/read_answers.py:52-69 | the grid has questions 1..40 in order, each with four cells labelled A to D |
| AnswerGrid.Origins | omr-server/answers/read_answers.py:44-50 | the five block origins are the x of clicks 0, 2, 3, 4 and 5 (Q1A, Q9A, Q17A, Q25A, Q33A) |
| AnswerGrid.BuildSubjectGrid | omr-server/answers/read_answers.py:37-69 | unpacking the clicks into six names succeeds exactly for six clicks and then gives 40 rows |
| AnswerGrid.OverlayBuildSubjectGrid | omr-server/answers/overlay_test.py:59-111 | reading the clicks by index succeeds exactly for at least six clicks and gives 40 rows |
| AnswerGrid.BuildersAgree | omr-server/answers/overlay_test.py:59-111 | the overlay tool's builder equals the reader's on six clicks, and on more clicks equals the reader's on the first six |
| AnswerGrid.CellX | omr-server/answers/read_answers.py:54-65 | choice j of question k sits at the block origin of `k / 8` plus `48 j` |
| AnswerGrid.CellYSharedAcrossBlocks | omr-server/answers/read_answers.py:58-60 | the same row of every block, and every choice of it, has the same y |
| AnswerGrid.CellYEnds | omr-server/answers/read_answers.py:40-60 | row 0 of a block is at Q1A's y, row 7 at Q8A's y, and rows run down the page when Q8A is below Q1A |
| AnswerGrid.SubjectClicks | omr-server/answers/read_answers.py:93 | subject i takes clicks `6i .. 6i+5` |
| AnswerGrid.SubjectGrids | omr-server/answers/read_answers.py:89-94 | the number of subjects read is the click count divided by six, failing when that exceeds the five subject names; subject i is named by the i-th subject and gridded from its six clicks |
| AnswerGrid.ThirtyClicksFiveSubjects | omr-server/answers/read_answers.py:17-89 | the shipped thirty clicks give all five subjects |
| AnswerGrid.OverlayGridsAgree | omr-server/answers/overlay_test.py:121-126 | every six-click group gridded by the overlay tool matches the reader's grid |
| AnswerDetect.BubbleRatio | omr-server/answers/read_answers.py:105-116 | a cell's ink ratio lies in [0, 1]; an empty window scores 0 |
| AnswerDetect.BubbleRatioInterior | omr-server/answers/read_answers.py:105-116 | away from the edges the window is 24 rows by 32 columns around the cell, and the ratio is its ink count over 768 |
| AnswerDetect.MarkedMembers | omr-server/answers/read_answers.py:120-121 | the marked choices (`AnswerDetect.Marked`) are exactly the choices scoring above 0.20, in grid order |
| AnswerDetect.Decide | omr-server/answers/read_answers.py:123-144 | no answer exactly when no choice scores above 0.20, and then confidence 0 and review; an answer is always one of the question's choices |
| AnswerDetect.MarkedInsert | omr-server/answers/read_answers.py:120-124 | filtering by the threshold commutes with inserting into a descending list |
| AnswerDetect.MarkedOfSorted | omr-server/answers/read_answers.py:120-124 | on a descending list the marked choices are a prefix: exactly the positions scoring above 0.20 |
| AnswerDetect.SortMarkedCommute | omr-server/answers/read_answers.py:120-124 | sorting the marked choices equals marking the sorted choices |
| AnswerDetect.DecideByRanking | omr-server/answers/read_answers.py:123-144 | an answer exists iff the best raw ratio exceeds 0.20; it is the first best choice with confidence its ratio rounded to two places; review iff the best is under 0.60 or a marked runner-up is within 0.07 |
| AnswerDetect.RawScores | omr-server/answers/read_answers.py:104-116 | one raw ratio in [0, 1] per cell, keyed by the cell's choice, in grid order |
| AnswerDetect.RoundScores | omr-server/answers/read_answers.py:118 | the reported scores are the raw ratios rounded to two places |
| AnswerDetect.ReadQuestionEntry | omr-server/answers/read_answers.py:100-153 | a question's entry (`AnswerDetect.ReadQuestion`) carries the decision's confidence (in [0, 1]) and one reported score per choice, keyed by the choice |
| AnswerDetect.ReadGrid | omr-server/answers/read_answers.py:100-153 | one entry per grid row, keyed by the question number as a decimal string, in question order |
| AnswerDetect.DetectAnswers | omr-server/answers/read_answers.py:87-157 | succeeds iff the click groups do not outnumber the subject names; subject i is named `SUBJECTS[i]` and has 40 entries |
| AnswerDetect.DetectAnswersEntry | omr-server/answers/read_answers.py:91-153 | entry k of subject i is keyed "k+1", no other entry has that key, and it is the reading of question k of that subject's grid |
| FakeAnswers.Others | omr-server/answers/generate_fake_answers.py:192 | the candidates for a second mark are exactly the choices other than the primary, order kept |
| FakeAnswers.Secondary | omr-server/answers/generate_fake_answers.py:191-193 | a second mark is always a valid choice different from the primary |
| FakeAnswers.OthersOfChoices | omr-server/answers/generate_fake_answers.py:181-192 | with four distinct choices there are always three candidates for the second mark |
| FakeAnswers.SecondaryOnto | omr-server/answers/generate_fake_answers.py:192 | every other choice can be drawn as the second mark |
| FakeAnswers.Placement | omr-server/answers/generate_fake_answers.py:99-112 | the placement box is `int(13 s)` wide and `int(8 s)` high for scale s |
| FakeAnswers.PlacementSize | omr-server/answers/generate_fake_answers.py:99-102 | for a scale drawn from [6, 7] the box is 78..91 pixels wide and 48..56 high |
| FakeAnswers.Clip01 | omr-server/answers/generate_fake_answers.py:128 | clipping lands in [0, 1] and leaves values already there unchanged |
| FakeAnswers.Blend | omr-server/answers/generate_fake_answers.py:123-132 | the multiply blend never lightens a pixel, leaves it at strength 0 and blackens it at strength 1 |
| FakeAnswers.Strength | omr-server/answers/generate_fake_answers.py:126-128 | the graphite strength (texture times 1.35 times intensity, clipped) lies in [0, 1] |
| FakeAnswers.FillPixel | omr-server/answers/generate_fake_answers.py:118-132 | a pixel outside the box keeps its value; inside it is blended with the texture at its offset in the box |
| FakeAnswers.PencilFill | omr-server/answers/generate_fake_answers.py:64-132 | a fill whose box leaves the image changes nothing; otherwise only pixels in the box change, each by the blend, and no pixel gets lighter |
| FakeAnswers.FillRow | omr-server/answers/generate_fake_answers.py:118-132 | one image row is filled pixel by pixel |
| StudentGrid.YsOf | omr-server/student/overlay_test.py:43 | the list of anchor ys, one per anchor in order |
| StudentGrid.NameGrid | omr-server/student/overlay_test.py:141-153 | one column per anchor, each of 28 rows labelled A..Z, Ñ, '-' in order, at the anchor's x |
| StudentGrid.RoundXs | omr-server/student/overlay_test.py:149 | `int(round(x))` of an integer anchor x is x itself |
| StudentGrid.NameGridRows | omr-server/student/overlay_test.py:141-153 | every column of a name grid has the same row ys, row 0 is the rounded mean anchor y, and rows run strictly down when the dash is more than 27 pixels below the top (also lines 43, 75) |
| StudentGrid.LastNameGrid | omr-server/student/overlay_test.py:141-153 | the last-name grid has 15 columns (also lines 19-43, 75) |
| StudentGrid.FirstNameGrid | omr-server/student/overlay_test.py:157-169 | the first-name grid has 19 columns (also lines 46-72) |
| StudentGrid.MiGrid | omr-server/student/overlay_test.py:172-187 | the middle-initial grid has 2 columns (also lines 78-84) |
| StudentGrid.ShippedNameGridsIncrease | omr-server/student/overlay_test.py:19-187 | in every column of the three shipped name grids the rows run strictly down the page |
| StudentGrid.MonthGrid | omr-server/student/overlay_test.py:195-203 | twelve month points, all at x 1910 (also lines 91-93) |
| StudentGrid.MonthGridLayout | omr-server/student/overlay_test.py:195-203 | the months run strictly down from y 2783 to y 3318 (also lines 91-93) |
| StudentGrid.DayGrid | omr-server/student/overlay_test.py:206-222 | the day tens column has 4 points at x 2105 and the ones column 10 points at x 2154 (also lines 97-103) |
| StudentGrid.DayGridRows | omr-server/student/overlay_test.py:206-222 | the ones column reuses the tens column's top y and pitch, so row r of both is at `2880 + 49 r` and rows run strictly down |
| StudentGrid.YearGrid | omr-server/student/overlay_test.py:225-237 | two year columns of 10 points at x 2202 and 2251 (also lines 106-109) |
| StudentGrid.YearGridRows | omr-server/student/overlay_test.py:225-237 | both year columns use the first column's ys, running strictly down from 2879 to 3319 |
| StudentGrid.SscGrid | omr-server/student/overlay_test.py:240-241 | the SSC grid is its single bubble under key 0 (also line 113) |
| StudentGrid.FourPsGrid | omr-server/student/overlay_test.py:245-246 | the 4Ps grid keys the Yes, No and I-don't-know bubbles 0, 1, 2 in list order (also lines 120-124) |
| StudentGrid.SpecialClassGrid | omr-server/student/overlay_test.py:248-249 | the special-class grid keys the five bubbles 0..4 in list order (also lines 127-133) |
| StudentGrid.GenderGrid | omr-server/student/overlay_test.py:251-252 | the gender grid keys Male and Female 0 and 1 (also lines 136-139) |
| StudentGrid.OptionWindowsDisjoint | omr-server/student/overlay_test.py:120-139 | within the 4Ps, special-class and gender lists any two bubbles are at least one 14-pixel measuring window apart, so their windows never overlap |
| StudentRead.ColumnScores | omr-server/student/read_student_info.py:61-84 | a column's scores drop the cells whose window is empty and are empty exactly when every cell was skipped |
| StudentRead.ColumnScoresConcat | omr-server/student/read_student_info.py:64-84 | the scores are built cell by cell in grid order: a skipped cell adds nothing and a measured one adds its rounded ratio under its own letter |
| StudentRead.ReadNameColumn | omr-server/student/read_student_info.py:61-91 | a column whose every window is empty adds a space and no detail; otherwise its detail carries the column's three-decimal scores |
| StudentRead.NameColumn | omr-server/student/read_student_info.py:86-114 | an empty column adds a space and no detail; otherwise the column adds the first best letter iff it reaches 0.55 and leads the runner-up (0 when alone) by 0.07, else a space; the status is blank iff the best is under 0.55, single iff the letter is accepted, multi otherwise; `selected` is the best letter iff it reaches 0.55; the confidence is the best score rounded to three places |
| StudentRead.NameColumnStatus | omr-server/student/read_student_info.py:98-110 | for a letter other than space, a non-space character is added exactly for single columns, and a multi column still reports its best letter as selected |
| StudentRead.NameChars | omr-server/student/read_student_info.py:61-107 | the unstripped name has one character per column, the column's decision |
| StudentRead.Detail | omr-server/student/read_student_info.py:89-114 | a column gets a detail entry exactly when it has a score |
| StudentRead.Keyed | omr-server/student/read_student_info.py:109 | every entry of the details dict is a column that has a detail, stored under that column, in increasing column order |
| StudentRead.KeyedComplete | omr-server/student/read_student_info.py:109 | every column that has a detail appears in the details dict under its own position |
| StudentRead.Details | omr-server/student/read_student_info.py:61-114 | one optional detail per column |
| StudentRead.DetectNameShape | omr-server/student/read_student_info.py:116 | the name `StudentRead.DetectName` detects is a contiguous stretch of the per-column characters with only whitespace stripped off either end |
| StudentRead.ReadSingleColumn | omr-server/student/read_student_info.py:190-215 | a label is read iff the column has a score, its best reaches 0.55 and leads the runner-up (0 when alone) by 0.07; the label is the first best |
| StudentRead.ReadMonth | omr-server/student/read_student_info.py:217-221 | a month is read exactly when its column is, and is the month name of the read row (also lines 33-36) |
| StudentRead.ReadDay | omr-server/student/read_student_info.py:223-237 | a day is read iff there are two columns, both are read and `10 tens + ones` lies in 1..31; it is that value as two zero-padded digits |
| StudentRead.ReadYearColumn | omr-server/student/read_student_info.py:243-268 | a year digit is read iff the column has a score and its best reaches 0.55 (no dominance rule); it is the first best row's index as a string |
| StudentRead.YearRuleRelaxesGap | omr-server/student/read_student_info.py:213-266 | every column the strict rule reads, the year rule reads the same way |
| StudentRead.ReadYear | omr-server/student/read_student_info.py:239-275 | a year is read iff there are two columns and both digits are read |
| StudentRead.YearValue | omr-server/student/read_student_info.py:270-275 | a read year is two digits whose value is ten times the first column's best row plus the second's |
| StudentRead.ReadSsc | omr-server/student/read_student_info.py:277-294 | SSC is true iff some measured bubble reaches 0.55 |
| StudentRead.FirstFilled | omr-server/student/read_student_info.py:336-362 | a single-select option is the first filled bubble, none when no bubble is filled |
| StudentRead.FirstLabel | omr-server/student/read_student_info.py:333-362 | the single-select answer is the label of the first filled bubble, none when no bubble is filled |
| StudentRead.AllLabels | omr-server/student/read_student_info.py:342-353 | the multi-select answer holds exactly the labels of the filled bubbles |
| StudentRead.AllLabelsConcat | omr-server/student/read_student_info.py:350-353 | the special classes list every filled option once, in key order: the labels of a joined list of options are those of each part joined, and one option gives its label iff it is filled |
| StudentRead.ReadStudentFlags | omr-server/student/read_student_info.py:307-368 | 4Ps and gender are the labels of their first filled option (none when no option is filled) and the special classes are the labels of every filled option in key order; so 4Ps is one of "Yes", "No", "I don't know", gender "Male" or "Female", and every special class one of the five labels |
| CurrentGrid.RegionGrid | omr-server/school/current/curr_overlay_test.py:12-57 | seventeen region points, all at x 793 |
| CurrentGrid.RegionGridRows | omr-server/school/current/curr_overlay_test.py:12-57 | the region rows run strictly down from y 2104 to y 2879 |
| CurrentGrid.DivisionGrid | omr-server/school/current/curr_overlay_test.py:17-72 | two division columns of ten digit rows |
| CurrentGrid.DivisionGridLayout | omr-server/school/current/curr_overlay_test.py:60-72 | the division columns sit at x 841 and 890, share their row ys, and rows run strictly down |
| CurrentGrid.SchoolIdGrid | omr-server/school/current/curr_overlay_test.py:24-85 | six school-id columns of ten rows, column c at the c-th listed x |
| CurrentGrid.SchoolIdGridRows | omr-server/school/current/curr_overlay_test.py:75-85 | all school-id columns share the first column's row ys, starting at 2150 and running strictly down |
| CurrentGrid.SchoolTypeGrid | omr-server/school/current/curr_overlay_test.py:30-89 | the ten hand-placed school-type points keyed 0..9 in list order, all at x 159 |
| CurrentGrid.SchoolTypeGridRows | omr-server/school/current/curr_overlay_test.py:30-41 | the school types run strictly down one column from y 2734 to y 3267 |
| CurrentRead.DecideSelection | omr-server/school/current/curr_read_info.py:72-83 | a value is selected iff the best score reaches the threshold and leads the runner-up (0 when alone) by 0.10; it is the first best key; the returned confidence is the best score either way |
| CurrentRead.DecideWithStatus | omr-server/school/current/read_info.py:74-85 | the status is blank iff the best is under the threshold, multi iff it reaches it with a gap under 0.10, and single exactly when a value is returned |
| CurrentRead.DecisionsAgree | omr-server/school/current/read_info.py:74-85 | the status-returning variant selects the same value with the same confidence as the plain one |
| CurrentRead.LabelledScores | omr-server/school/current/curr_read_info.py:106-133 | a column's scores key each row's ratio by its label, rounded to the grid's scale |
| CurrentRead.ReadColumn | omr-server/school/current/curr_read_info.py:103-122 | a column's scores are its rounded ratios keyed by label; a label is selected iff the best score reaches the threshold with a 0.10 lead, and it is the first best label; the confidence is the best score rounded again |
| CurrentRead.ColumnResults | omr-server/school/current/curr_read_info.py:127-144 | one result per column, keyed by the column index, each read independently |
| CurrentRead.ReadGrid | omr-server/school/current/curr_read_info.py:90-146 | a single-column grid gives one result keyed 0, a multi-column grid one result per column keyed by its index, and the decoded string is the concatenation of the selected labels |
| CurrentRead.DecodedCountsSelections | omr-server/school/current/curr_read_info.py:137-138 | with one-character labels the decoded string has one character per selected column, so never more than the columns |
| CurrentRead.DigitSelectionsAreDigits | omr-server/school/current/curr_read_info.py:173-174 | every selected digit-column value is one of "0".."9", so a single character (also line 37) |
| CurrentRead.Confidences | omr-server/school/current/curr_read_info.py:203-207 | the per-column confidences are rounded to two places, in column order |
| CurrentRead.WrapField | omr-server/school/current/curr_read_info.py:183-233 | no details give confidence 0 and review; otherwise review iff the confidence is under 0.50, the confidence being the single column's (two places) or the two-place mean of the columns' two-place confidences; the answer is passed through |
| CurrentRead.WrapFieldReview | omr-server/school/current/curr_read_info.py:199-231 | when every column's two-place confidence reaches 0.50 the field is not sent to review, single or multi-column |
| CurrentRead.FlatField | omr-server/school/current/curr_read_info.py:171-180 | a single-column grid (region, school type) read at a threshold and wrapped: its answer is empty or one of the grid's labels, non-empty only when the best two-place score reaches the threshold, and reviewed iff its confidence is under 0.50 |
| CurrentRead.DigitsField | omr-server/school/current/curr_read_info.py:173-174 | a digit grid (division, school id) read at a threshold and wrapped: its answer has at most one digit per column |
| CurrentRead.ReadCurrentSchoolInfo | omr-server/school/current/curr_read_info.py:153-240 | a missing image raises; otherwise each of the four fields is `wrap_field` of its own `read_grid` decoding, at threshold 0.38 for the region, 0.42 for division and school id, and 0.40 for the school type (`FlatField`, `DigitsField`); consequently the region is empty or one of the 17 names, the school type empty or one of the 10 types, division and school id decode to at most one character per column, the region is reviewed iff its confidence is under 0.50, and a region or school type is read only when its best two-place score reaches 0.38 or 0.40 |
| CurrentRead.RegionLetters | omr-server/school/current/read_info.py:20 | the region rows are the 26 letters A..Z |
| CurrentRead.LetterIndex | omr-server/school/current/read_info.py:182 | `REGION_ROWS.index` finds the unique position of a letter |
| CurrentRead.MapRegion | omr-server/school/current/read_info.py:180-183 | an empty value stays empty, letters A..O map to the fifteen region names in order, and later letters stay as they are (also lines 22-38) |
| CurrentRead.RegionLetter | omr-server/school/current/read_info.py:178 | the region decoded at threshold 0.40 is empty or one letter A..Z, and a letter is read only when the darkest row reaches 0.40 |
| CurrentRead.ReadSchoolValues | omr-server/school/current/read_info.py:157-205 | a missing image raises; otherwise the region is the region name of the letter decoded at 0.40 (or the letter itself past O), division and school id are their digit-by-digit decodings at 0.42 with at most one character per column, and the school type is its decoding at 0.40, empty or one of the 10 types |
| CurrentRead.FlatDecodedIsLabel | omr-server/school/current/curr_read_info.py:103-122 | a single-column grid decodes to the empty string or one of its labels |
| CurrentRead.NestedDigitsLength | omr-server/school/current/curr_read_info.py:127-146 | a digit grid decodes to at most one digit per column |
| PreviousGrid.RowYs | omr-server/school/previous/prev_overlay_test.py:99-152 | n rows from the top point's y to the bottom point's y, the first and last landing exactly on them |
| PreviousGrid.RowYsIncreasing | omr-server/school/previous/prev_overlay_test.py:100-105 | when the bottom lies at least one pixel per gap below the top, the truncated row ys strictly increase |
| PreviousGrid.SchoolIdGrid | omr-server/school/previous/prev_overlay_test.py:21-110 | the six listed column xs and ten rows running from 2151 to 2589 |
| PreviousGrid.FinalGrades | omr-server/school/previous/prev_overlay_test.py:46-130 | ten column xs (tens and ones for five subjects), four tens rows and ten ones rows |
| PreviousGrid.TensRowsExact | omr-server/school/previous/prev_overlay_test.py:46-119 | the tens rows for grades 6 to 9 fall at 2879, 2928, 2977 and 3026 |
| PreviousGrid.ClassSize | omr-server/school/previous/prev_overlay_test.py:86-159 | tens column at x 1716 and ones column at x 1764, ten rows each, running 2881..3319 and 2880..3317 |
| PreviousGrid.RowListsIncrease | omr-server/school/previous/prev_overlay_test.py:99-159 | every row list the builders produce runs strictly downwards, so no two rows of a column coincide |
| PreviousGrid.SchoolYearOptions | omr-server/school/previous/prev_overlay_test.py:74-138 | the two school-year bubbles, "SY 2015-2016" above "Before", share one x |
| PreviousRead.DigitLabels | omr-server/school/previous/prev_read_info.py:97-155 | the labels "0".."9" in order |
| PreviousRead.TensLabels | omr-server/school/previous/prev_read_info.py:148 | the tens labels "6".."9" in order |
| PreviousRead.Labelled | omr-server/school/previous/prev_read_info.py:54-58 | each row's score keyed by its value, in row order |
| PreviousRead.FirstBestRow | omr-server/school/previous/prev_read_info.py:60-61 | `max(scores, key=scores.get)` over rows keyed in order picks a row with the largest score and no earlier row reaching it |
| PreviousRead.ReadColumn | omr-server/school/previous/prev_read_info.py:53-66 | the confidence is the first maximal score; a value is selected iff it reaches 0.25, and it is the value of that first maximal row |
| PreviousRead.AvgOrZero | omr-server/school/previous/prev_read_info.py:115 | no confidences average to 0; confidences that all reach the fill threshold average to at least it (also lines 169, 219) |
| PreviousRead.MeanAtLeastIf | omr-server/school/previous/prev_read_info.py:115 | the mean of non-empty values that all reach 0.25 reaches 0.25 |
| PreviousRead.Rated | omr-server/school/previous/prev_read_info.py:117-174 | the field keeps its answer, reports the two-place confidence and is reviewed iff that is under 0.25 |
| PreviousRead.RatedReview | omr-server/school/previous/prev_read_info.py:115-120 | when every averaged confidence comes from a selected column, the field is reviewed iff nothing was selected |
| PreviousRead.SelectedConfidences | omr-server/school/previous/prev_read_info.py:108-112 | only selected columns contribute a confidence |
| PreviousRead.JoinedDigits | omr-server/school/previous/prev_read_info.py:106-114 | the joined school id has one digit per selected column, is empty iff no column is selected, and every contributing confidence reaches 0.25 |
| PreviousRead.ReadDigitColumns | omr-server/school/previous/prev_read_info.py:92-98 | one read per column over the labels 0..9, each selection respecting the threshold and one character long |
| PreviousRead.SchoolIdField | omr-server/school/previous/prev_read_info.py:88-124 | the answer is None iff no digit is selected, else it is the selected digits joined in column order (`JoinDigits`), one digit per selected column; the confidence is the two-place mean of the selected confidences; review iff nothing is selected |
| PreviousRead.JoinDigitsConcat | omr-server/school/previous/prev_read_info.py:108-114 | `"".join` over the columns: joining two runs of columns concatenates their digit strings, so the id keeps column order |
| PreviousRead.JoinDigitsOne | omr-server/school/previous/prev_read_info.py:108-112 | a column with a selected digit contributes that digit and an unselected column the empty string |
| PreviousRead.PairField | omr-server/school/previous/prev_read_info.py:158-224 | an answer only when both halves are selected, then tens followed by ones; the confidence averages just the selected halves; review iff neither half is selected |
| PreviousRead.HalfConfidences | omr-server/school/previous/prev_read_info.py:159-169 | the confidences of the selected halves: none when neither, their mean otherwise |
| PreviousRead.MeanOfOne | omr-server/school/previous/prev_read_info.py:169 | the average of one confidence is itself |
| PreviousRead.MeanOfTwo | omr-server/school/previous/prev_read_info.py:169 | the average of two confidences is their half-sum |
| PreviousRead.HalfReadNotReviewed | omr-server/school/previous/prev_read_info.py:158-174 | a grade with exactly one half shaded has no answer yet is not flagged for review |
| PreviousRead.FinalGrades | omr-server/school/previous/prev_read_info.py:129-189 | five grades, for Math, English, Science, Filipino and AP in that order, subject k pairing column 2k (tens 6..9) with column 2k+1 (ones 0..9) |
| PreviousRead.FinalGradeRange | omr-server/school/previous/prev_read_info.py:144-167 | every final grade read is a number from 60 to 99 |
| PreviousRead.ClassSize | omr-server/school/previous/prev_read_info.py:194-237 | the class size pairs two digit columns and, when read, is a number of at most 99 |
| PreviousRead.PickSchoolYear | omr-server/school/previous/prev_read_info.py:242-256 | the best score is the largest positive score (0 when none is positive), and an option is selected iff it reaches 0.25, namely the first with the largest score |
| PreviousRead.SchoolYear | omr-server/school/previous/prev_read_info.py:242-265 | the confidence is the best score (the largest positive score, 0 when none) rounded to two places; there is an answer iff that best reaches 0.25, and it is the label of the first option with the largest score; with no positive score there is no answer, confidence 0 and review; review iff the confidence is under 0.25 |
| PreviousRead.ReadPreviousSchoolInfo | omr-server/school/previous/prev_read_info.py:73-267 | the school id is reviewed iff it is missing and has at most six digits; five final grades in subject order; a two-digit class size; a school year from the two labels |
| Persist.GetFirst | omr-server/db/persist_scan.py:14-26 | `dict.get`: the value of the first entry with the key, the default when no entry has it |
| Persist.AggregateReviewFlag | omr-server/db/persist_scan.py:9-17 | a section is flagged iff some field in it is an object whose review_required is truthy |
| Persist.AggregationMissesNestedGroup | omr-server/db/persist_scan.py:171-175 | a previous-school section whose only flagged field sits inside the final_grade group is not flagged, although that group holds a field under review (also lines 9-17) |
| Persist.AggregateReviewFlagDeep | omr-server/db/persist_scan.py:9-17 | the corrected aggregation flags a section iff some field, or some field of a group such as final_grade, is flagged |
| Persist.GroupFlagged | omr-server/db/persist_scan.py:13-16 | one group of fields is flagged iff one of its object fields is |
| Persist.AnyFieldFlagged | omr-server/db/persist_scan.py:13-16 | a list of fields is flagged iff one of them is |
| Persist.DeepAggregationExtends | omr-server/db/persist_scan.py:9-17 | the corrected aggregation flags everything the original does, and also the final_grade example the original misses |
| Persist.QuestionsOf | omr-server/db/persist_scan.py:212 | a subject's questions are present iff the subject is an object whose "answers" entry (default empty) is an object (also line 25) |
| Persist.AggregateAnswersReviewFlag | omr-server/db/persist_scan.py:20-28 | on well-shaped answers the flag is true iff some question of some subject has a truthy review_required; a malformed subject is an error and never a silent true |
| Persist.ScanReview | omr-server/db/persist_scan.py:62-96 | the scan is flagged iff the student, previous-school, current-school or answers flag is |
| Persist.IntOf | omr-server/db/persist_scan.py:234 | Python `int()` of a JSON value succeeds exactly for a bool, a number or a decimal numeral; a number is truncated toward zero |
| Persist.IntOfAgreesWithTruth | omr-server/db/persist_scan.py:234 | for a bool or a whole number, the stored integer is non-zero exactly when the value is truthy |
| Persist.FlagStorageExamples | omr-server/db/persist_scan.py:234 | a review flag of 0.5 is truthy yet stored as 0, and a flag of "yes" makes `int()` raise (also lines 26-27) |
| Persist.RowOf | omr-server/db/persist_scan.py:227-235 | a question row can be written iff its number parses to a 64-bit integer, its answer and confidence are bindable scalars and its review flag converts by `int()` to a 64-bit integer; the row carries the subject, that number, the answer, the confidence and that integer |
| Persist.SubjectRowsSpec | omr-server/db/persist_scan.py:212-236 | a subject's rows exist iff every one of its question rows can be written; then there is one row per question, in order |
| Persist.AnswerRows | omr-server/db/persist_scan.py:211-236 | when every row can be written, one row per question across all subjects |
| Persist.CollectAt | omr-server/db/persist_scan.py:211-236 | when the nested loops finish, every subject's rows were built and row j of subject i sits right after all rows of the subjects before it |
| Persist.StartsAreOffsets | omr-server/db/persist_scan.py:211-236 | subject i's rows start after the questions of the subjects before it, and all rows together number the questions of all subjects |
| Persist.AnswerRowAt | omr-server/db/persist_scan.py:211-236 | question j of subject i is stored at position offset(i) + j, that is, subjects in order and questions in order within each |
| Persist.ColumnValues | omr-server/db/persist_scan.py:128-137 | a section's columns can be written iff every named field is a dict (absent counts as `{}`) whose answer SQLite can bind; then column k holds the answer of field k, None when it has none |
| Persist.StudentValues | omr-server/db/persist_scan.py:128-140 | the student row can be written iff the ten plain fields can and special_classes is a dict; its eleven columns are the ten answers and then the special_classes answer |
| Persist.PreviousValues | omr-server/db/persist_scan.py:168-175 | the previous-school row can be written iff its three fields can, final_grade is a dict and its five subject fields can; the columns are those answers in that order |
| Persist.CurrentValues | omr-server/db/persist_scan.py:199-202 | the current-school row can be written iff region, division, school_id and school_type can; it has four columns |
| Persist.PlainStudentFieldRaises | omr-server/db/persist_scan.py:128 | a student section holding a plain string per name cannot be stored, while a field dict without an answer stores None |
| Persist.PersistScan | omr-server/db/persist_scan.py:31-240 | a scan is stored iff the answers are well shaped, the three section rows and every answer row can be written; it is then flagged iff a section or a question is flagged, stores each section's own aggregated flag, carries the section columns, and its answer rows are exactly the rows built from the answers, one per question in subject and question order |
| AnswerSheet.WithDefaults | be-omr-demo/src/answer-sheet/answer-sheet.service.ts:19-25 | an absent page, limit, sort column or sort order falls back to 1, 20, "created_at" and "desc"; given ones are kept |
| AnswerSheet.Offset | be-omr-demo/src/answer-sheet/answer-sheet.service.ts:27 | the offset of page p is (p - 1) pages of rows, never negative for a page from 1 |
| AnswerSheet.OrderDirection | be-omr-demo/src/answer-sheet/answer-sheet.service.ts:31 | the order is ascending iff the lower-cased sort order is "asc", anything else sorting descending |
| AnswerSheet.OrderDirectionCases | be-omr-demo/src/answer-sheet/answer-sheet.service.ts:31 | "ASC", "Asc" and "asc" sort ascending; "desc", an unknown word and "" sort descending |
| AnswerSheet.SortColumns | be-omr-demo/src/answer-sheet/answer-sheet.service.ts:60-80 | "name" sorts by last then first name, "school" by school id, anything else by creation time, every column in the one chosen direction |
| AnswerSheet.TotalPages | be-omr-demo/src/answer-sheet/answer-sheet.service.ts:109 | `Math.ceil(total / limit)`: zero pages iff no rows, otherwise the fewest pages of `limit` rows that hold them all |
| AnswerSheet.CeilDivBounds | be-omr-demo/src/answer-sheet/answer-sheet.service.ts:109 | any whole number n with n - 1 < total / limit <= n is zero iff total is, and otherwise n - 1 pages of `limit` rows fall short of total while n pages hold it |
| AnswerSheet.Window | be-omr-demo/src/answer-sheet/answer-sheet.service.ts:82-84 | `LIMIT`/`OFFSET`: at most limit rows, the slice starting at the page's offset, empty past the end |
| AnswerSheet.WindowsConcatenate | be-omr-demo/src/answer-sheet/answer-sheet.service.ts:27-84 | pages 1..n side by side are the first n·limit rows (clipped to the rows) |
| AnswerSheet.WindowIsSlice | be-omr-demo/src/answer-sheet/answer-sheet.service.ts:27-84 | page n is the rows between the clipped offsets (n - 1)·limit and n·limit |
| AnswerSheet.AllPagesCoverRows | be-omr-demo/src/answer-sheet/answer-sheet.service.ts:82-109 | reading pages 1 to totalPages in turn returns every row exactly once, in order |
| AnswerSheet.SubjectsOf | be-omr-demo/src/answer-sheet/answer-sheet.service.ts:159-165 | the group keys hold each subject at most once |
| AnswerSheet.SubjectsCover | be-omr-demo/src/answer-sheet/answer-sheet.service.ts:159-165 | every answered subject is a group key |
| AnswerSheet.SubjectsAreAnswered | be-omr-demo/src/answer-sheet/answer-sheet.service.ts:159-165 | every group key is the subject of some answer |
| AnswerSheet.OfSubjectMembers | be-omr-demo/src/answer-sheet/answer-sheet.service.ts:167 | a subject's group holds exactly the answers of that subject |
| AnswerSheet.CorrectCount | be-omr-demo/src/answer-sheet/answer-sheet.service.ts:169-171 | the score counts answers marked correct, so never exceeds the answers |
| AnswerSheet.GroupAnswers | be-omr-demo/src/answer-sheet/answer-sheet.service.ts:154-172 | one group per subject in first-seen order, holding that subject's answers in order with a score of its correct ones, never more than its answers |
| AnswerSheet.AddAnswer | be-omr-demo/src/answer-sheet/answer-sheet.service.ts:160-171 | one loop step keeps the groups equal to the grouping of the answers seen so far |
| AnswerSheet.GroupStep | be-omr-demo/src/answer-sheet/answer-sheet.service.ts:160-171 | adding an answer to its (possibly new) group and bumping the score on a correct one gives the grouping of the longer prefix |
| AnswerSheet.NotYetSeen | be-omr-demo/src/answer-sheet/answer-sheet.service.ts:160-165 | a subject with no group yet has no answers so far |
| AnswerSheet.GroupSizesSum | be-omr-demo/src/answer-sheet/answer-sheet.service.ts:154-172 | the group sizes add up to the number of answers, so no answer is lost or counted twice |
| AnswerSheet.AnswerSheetById | be-omr-demo/src/answer-sheet/answer-sheet.service.ts:114-190 | null iff no scan has the id; otherwise the first scan with it, missing file fields read as "", and that scan's answers grouped by subject |
| AnswerSheet.ScanAnswers | be-omr-demo/src/answer-sheet/answer-sheet.service.ts:148-151 | the selected answers are exactly those stored under the scan id |
| Frontend.FirstBand | fe-omr-demo/lib/utils.ts:30-35 | no colour iff no band holds the letter; otherwise the colour of the first band that does |
| Frontend.Initial | fe-omr-demo/lib/utils.ts:11-42 | the upper-cased first character, empty exactly for a missing or empty name |
| Frontend.BackgroundColor | fe-omr-demo/lib/utils.ts:8-38 | "Unassigned" and names without an initial are dark gray; otherwise the colour of the first band holding the upper-cased initial, dark gray when none does |
| Frontend.BandsPartitionCapitals | fe-omr-demo/lib/utils.ts:14-28 | the thirteen bands cover A..Z without overlap: a capital c lies in band (c - 'A') / 2 and in no other |
| Frontend.LetterColour | fe-omr-demo/lib/utils.ts:8-38 | a name starting with a letter, in either case, gets the colour of band (initial - 'A') / 2 |
| Frontend.NonLetterIsGray | fe-omr-demo/lib/utils.ts:30-37 | a name whose upper-cased initial is not A..Z falls through every band to dark gray |
| Frontend.CaseInsensitiveColour | fe-omr-demo/lib/utils.ts:11 | two names whose initials agree up to case get one colour |
| Frontend.FallbackText | fe-omr-demo/lib/utils.ts:40-44 | two present names give their two upper-cased initials; a missing first name renders as "undefined" |
| Frontend.Rendered | fe-omr-demo/lib/utils.ts:41-43 | a missing name interpolates as "undefined", a present one as its initial |
| Frontend.Proxy | fe-omr-demo/proxy.ts:5-23 | a request is redirected iff its path is neither "/" nor under "/api/auth" (`Frontend.IsPublic`) and it carries no session token, and then to "/" |
| Frontend.ProxyPasses | fe-omr-demo/proxy.ts:14-22 | a signed-in user and a public path always pass, and the redirect target passes, so the guard cannot loop |
| Frontend.PublicPrefixExamples | fe-omr-demo/proxy.ts:14-16 | the prefix test admits "/api/authx" as well as "/api/auth/session", and rejects "/dashboard" and "" |
| Frontend.Middleware | fe-omr-demo/middleware.ts:4-15 | a request is redirected iff its path starts with "/dashboard" or "/exams" (`Frontend.IsSecure`) and the access_token cookie is missing or empty, and then to "/login" |
| Frontend.MiddlewarePasses | fe-omr-demo/middleware.ts:5-14 | other paths and non-empty tokens always pass, and "/login" is not guarded, so the guard cannot loop |

## Left out

- OpenCV pixel work is not modelled, because it is foreign, float-based image processing: grayscale conversion, blur, Otsu and adaptive thresholds, morphology, HSV orange suppression, contour extraction, circular masks, `approxPolyDP`, `warpPerspective` and deskewing. Fill scores, contour lists and corner candidates are parameters instead.
- `compute_fill_score` and the readers' image loading are not modelled; each reader takes the measured ratios of its cells instead.
- The student reader skips a cell whose window is empty, so its cells take a ratio or None. The answer, contour and previous-school readers score an empty window as 0.0, which is an ordinary ratio here.
- The current-school readers (`school/current/curr_read_info.py` and `school/current/read_info.py`) take plain ratios. In the source, a cell window outside the image reaches `cv2.adaptiveThreshold` empty and raises; that error path is not modelled.
- The synthetic sheet's random texture, Gaussian noise, stroke shapes and `simulate_erase` are left out; their random draws are parameters. `simulate_erase` is also switched off in the generator.
- `read_info.py` imports a grid module (`school.current.overlay_test`) that is not part of this model. Its grid shapes are therefore parameters of `CurrentRead.ReadSchoolValues`.
- File watching, polling, sleeps, the coordinate-picking GUI, command-line entry points, debug printing and image dumps are left out, because they are I/O.
- SQL execution, transactions, Drizzle queries and keyword `LIKE` filters are left out; database rows enter as lists. The list query's sort is reduced to the columns and direction it requests (`AnswerSheet.SortColumns`).
- JWT decoding in the proxy (`getToken`) is reduced to whether a token is present. The proxy's matcher regex is left out.
- Authentication, the React components, the `cn` class-name wrapper, DTO decorators and the Nest wiring are left out. `ListAnswerSheetDto`'s `@Min(1)` becomes the `limit >= 1` precondition of `AnswerSheet.TotalPages`.
- Python floats are exact reals. A score within one float rounding error of a threshold may be decided differently by the program.
- `Frontend.BackgroundColor`: upper-cases ASCII letters only, so an initial such as "ß", which JavaScript upper-cases to "SS", is modelled as dark gray.
- `Text.Lower`: lower-cases ASCII only. `toLowerCase` on other letters is not modelled, and only "asc" matters to the caller.
- `Text.ParseNat`: models `int(question_number)` for non-negative decimal strings only. Signs, surrounding whitespace and underscores, which Python also accepts, make the model fail instead.
- `PreviousRead.ReadPreviousSchoolInfo`: its contract states the shape of each field. Their confidences and review flags are stated by `PreviousRead.SchoolIdField`, `PreviousRead.PairField` and `PreviousRead.SchoolYear`, from which it is assembled.
- `Persist.PersistScan`: returns the stored record rather than the database's new row id. The raw JSON columns go through `json.dumps`, which accepts every decoded value, so they are not modelled.
- `Persist.IntOf`: parses a string flag or question number as a plain decimal numeral. Signs, surrounding whitespace and underscores, which Python's `int()` also accepts, make the model fail instead.
- `Persist.RowOf`: a JSON number used as an answer or confidence is always bindable here. An integer beyond 64 bits, which SQLite cannot bind, is not distinguished from a float.
- `AnswerSheet.SubjectsOf`: lists subjects in order of first appearance. A JavaScript object lists integer-like keys first, in ascending order, so the two differ for a subject named like "2". The subjects the answer reader writes are five lowercase words.
- `AnswerSheet.GroupAnswers`: starts every subject from an empty group. In JavaScript a subject named after an `Object.prototype` member ("constructor", "toString") finds that member instead, and `.answers.push` throws. The same applies to the key order described for `AnswerSheet.SubjectsOf`.
- `AnswerSheet.AnswerSheetById`: inherits the two JavaScript object behaviours left out of `AnswerSheet.GroupAnswers`.
- `Text.UpperCharCases`: `Text.UpperChar` upper-cases ASCII letters only. JavaScript's `toUpperCase` can also map other letters into A..Z ("ı" to "I", "ſ" to "S") or lengthen one ("ß" to "SS"); those cases are not modelled.
- `Frontend.Initial`: the initial is one ASCII-upper-cased character. JavaScript's `charAt(0)` takes one UTF-16 unit and `toUpperCase` may return two characters; neither is modelled.
- `Frontend.FallbackText`: built from `Frontend.Initial`, so it inherits that upper-casing. Its bound of two characters holds for the ASCII model only: under JavaScript two present names can give more ("ß" gives "SS"), so that bound is not claimed for the program.
- The locked inner window of the contour script is 4 pixels wide (`BkReader.NarrowWindowKeepsNothing`), so on the shipped geometry even `BkReader.FillCorrected` scores 0. The corrected fill matters only once that window is widened.

## Findings

| source | as written | input that shows it | evidently intended | confidence | as-written member | corrected member |
|---|---|---|---|---|---|---|
| omr-server/bk.py:119-172 | `max_area` is set to 0 and never updated, so every pill's "max" score is 0.0; with a floor of at least 0.010, every question is BLANK | a 20 by 20 window holding one centred contour of area 30 that passes every filter: "max" is 0.0 instead of 30/143 | `max_area` tracks the largest kept contour, giving a "max" score of that area over the mask's pixels | high, not executed | BkReader.FillAsWritten, BkReader.MaxAreaDiscrepancy, BkReader.EveryQuestionBlankAsWritten | BkReader.FillCorrected |
| omr-server/db/persist_scan.py:9-17 | the section flag looks only at top-level fields, so a flagged grade inside the `final_grade` group never flags the previous-school section, although the docstring promises "ANY field" | a previous-school section whose only field is `final_grade` holding `Math` with review_required true: the section flag is false | a field under review anywhere in the section, including inside the `final_grade` group, flags it | medium, not executed | Persist.AggregationMissesNestedGroup | Persist.AggregateReviewFlagDeep |
