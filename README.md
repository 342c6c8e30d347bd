# OCR-CLI core in Dafny

A verified model of the logic OCR-CLI owns when it turns a scanned PDF into text:

- The text post-processing of `TextValidator` (utils/text_validator.py). It corrects typical OCR
  confusions, repairs punctuation and capitalisation, guesses the language and scores text quality.
- The image logic of `AdvancedImageProcessor` (utils/image_processor.py). It orders the corners of a
  detected page, sizes the perspective warp and the rotation canvas, and guards the perspective and
  skew corrections. It also runs the preprocessing pipeline and scores image quality.
- The `Document` entity (domain/models.py), with its constructor validation and derived counts.
- The `SystemConfig` profiles (config/system_config.py).

Modules:

| file | module | models |
|---|---|---|
| wrappers.dfy | `Wrappers` | `Option` (Python `None`) and `Result` (an operation that raises) |
| numeric.dfy | `Numeric` | float `min`/`max`/`abs`, the `min(1.0, max(0.0, x))` clamp |
| py_text.dfy | `PyText` | Python `str` behaviour the validator relies on: `split()`, `strip()`, `join`, `replace`, `split('\n')`, `upper()`/`lower()`, character classes |
| text_correction.dfy | `TextCorrection` | `auto_correct_ocr_errors` and its steps |
| text_quality.dfy | `TextQuality` | `detect_language_confidence`, the five `calculate_*` text metrics and `calculate_text_quality_score` |
| image_geometry.dfy | `ImageGeometry` | `order_points` and the size computation of `four_point_transform` |
| image_processor.dfy | `ImageProcessor` | perspective and skew correction, `rotate_image`, `advanced_preprocessing`, the image quality score |
| models.dfy | `Models` | `Document` |
| system_config.dfy | `SystemConfiguration` | `SystemConfig`, its profiles and `QUALITY_PROFILES` |

Where the source loops or updates in place, the model is a method proved equal to a specification
function, and the properties are proved about that function. This covers:

- the substitution loop;
- the token loop of the contextual correction;
- the sentence loop of `fix_capitalization`;
- the counting loop of the capitalisation score;
- the slot-by-slot fill of `order_points`;
- the angle loop of `auto_deskew`;
- the in-place matrix adjustment of `rotate_image`.

OpenCV is not modelled pixel by pixel:

- A `Raster` records how an image was produced: a page, a filter stage with its constants, a
  perspective warp or a rotation.
- Everything OpenCV measures comes from a caller-supplied `Vision` value: contours, contour areas,
  polygon approximation, Hough lines, cosine and sine, and pixel statistics.
- So "returns the input unchanged" is exact equality of rasters.

## Model

| member | source | states |
|---|---|---|
| PyText.Strip | utils/text_validator.py:104 | the stripped text is empty exactly when the input is blank; otherwise it neither starts nor ends with whitespace, uses only input characters and starts at the input's first non-space character |
| PyText.StripIsSlice | utils/text_validator.py:104 | the stripped text is a slice `s[i..j]` of the input whose cut-off prefix `s[..i]` and suffix `s[j..]` are blank |
| PyText.Split | utils/text_validator.py:110 | every token of `str.split()` is non-empty and holds no whitespace (the next row ties the tokens to the text) |
| TextCorrection.SplitCollapsed | utils/text_validator.py:110 | the tokens of `str.split()`, joined by single spaces, are the text with every whitespace run collapsed to one space and the ends stripped |
| PyText.SplitJoin | utils/text_validator.py:145 | splitting tokens joined by single spaces gives the tokens back |
| PyText.SplitStrip | utils/text_validator.py:289 | `s.strip().split()` gives the same tokens as `s.split()` |
| PyText.SplitJoinSpace | utils/text_validator.py:289 | splitting two texts joined by a space gives the tokens of the first followed by those of the second |
| PyText.SplitEmpty | domain/models.py:181 | `str.split()` finds no token exactly when the text is blank |
| PyText.SplitLines | utils/text_validator.py:323 | no line of `split('\n')` holds a newline and joining the lines with `'\n'` gives the text back; there is at least one line, and exactly one when there is no newline |
| PyText.ReplaceAllChars | utils/text_validator.py:90 | `str.replace` only produces characters of its input or of the replacement |
| PyText.ReplaceAllErases | utils/text_validator.py:90 | replacing a one-character pattern by text that lacks it leaves no occurrence of that character |
| PyText.ReplaceAllAbsent | utils/text_validator.py:90 | text in which the pattern does not occur is returned unchanged |
| PyText.ReplaceCharPointwise | utils/text_validator.py:127-141 | replacing one character by another keeps the length and maps each position on its own |
| TextCorrection.ErasedFromEntry | utils/text_validator.py:89-90 | once an entry `c -> rep` with `c` not in `rep` has run, `c` stays out of the text unless a later entry writes it back |
| TextCorrection.SubstitutionsEraseConfusables | utils/text_validator.py:31-50 | after the table's replacements in dictionary order, none of `O l I S G B` is left in the text, whatever the input |
| TextCorrection.ReplaceEach | utils/text_validator.py:89-90 | the loop applies every entry's `replace`, in table order, for any table whose patterns are non-empty |
| TextCorrection.ApplySubstitutions | utils/text_validator.py:89-90 | the loop over `common_ocr_errors` leaves no confusable letter in the text |
| TextCorrection.CorrectToken | utils/text_validator.py:118-141 | a corrected token keeps its length and stays a whitespace-free token |
| TextCorrection.CorrectTokenCases | utils/text_validator.py:122-141 | after an article or preposition, or before an article, `0 1 5` become `O l S`; otherwise a word with an ASCII letter gets `0 1` replaced but not `5`; any other word is unchanged |
| TextCorrection.ContextCorrected | utils/text_validator.py:113-143 | one corrected token per input token, each of the same length, still a token |
| TextCorrection.ContextCorrectedAt | utils/text_validator.py:113-143 | token i keeps its length; when the lower-cased previous token is an article or preposition, or the lower-cased next token is an article, each of its `0 1 5` becomes `O l S`; otherwise, if it holds an ASCII letter, `0 1` become `O l` and `5` stays; otherwise it is unchanged; the first token has no previous token and the last no next one |
| TextCorrection.ContextCorrectedText | utils/text_validator.py:106-145 | re-splitting the output gives exactly the corrected tokens, as many as the input had and of the same lengths, joined by single spaces |
| TextCorrection.ContextualNumberLetterCorrection | utils/text_validator.py:106-145 | the token loop computes the contextual correction of the text |
| TextCorrection.CollapseSpacesNoRuns | utils/text_validator.py:96 | after `re.sub(r'\s+', ' ', ...)` no whitespace other than single spaces remains; collapsing again changes nothing |
| TextCorrection.CollapseSpacesIdentity | utils/text_validator.py:96 | text without whitespace runs is left as it is |
| TextCorrection.CollapseSpacesKeepsNonSpace | utils/text_validator.py:96 | collapsing keeps the non-whitespace characters, in order |
| TextCorrection.DropSpaceBeforeNoGap | utils/text_validator.py:150 | after `re.sub(r'\s+([marks])', ...)` no whitespace character is directly followed by one of the marks (also lines 157, 159 and 163) |
| TextCorrection.DropSpaceBeforeKeepsNonSpace | utils/text_validator.py:150 | that rule only deletes whitespace: the other characters are kept, in order |
| TextCorrection.SpaceAfterPunctSpaced | utils/text_validator.py:153 | after `re.sub(r'([,.;:!?])([^\s])', r'\1 \2', ...)` a mark directly followed by a non-whitespace character is the second of a pair the rule split as mark, space, mark: matches do not overlap, so that mark gets no space of its own |
| TextCorrection.SpaceAfterPunctKeepsNonSpace | utils/text_validator.py:153 | that rule only inserts spaces: the non-whitespace characters are kept, in order |
| TextCorrection.DropSpaceAfterNoGap | utils/text_validator.py:156 | after `re.sub(r'<mark>\s+', ...)` the mark is never directly followed by whitespace (also lines 158 and 162) |
| TextCorrection.DropSpaceAfterKeepsNonSpace | utils/text_validator.py:156 | that rule only deletes whitespace: the other characters are kept, in order |
| TextCorrection.DropSpaceBeforeKeepsNoSpaceAfter | utils/text_validator.py:157 | a whitespace-before rule never leaves whitespace after a non-whitespace mark that had none (also lines 159 and 163) |
| TextCorrection.DropSpaceBeforeKeepsNoSpaceBefore | utils/text_validator.py:157 | a whitespace-before rule never leaves whitespace before a non-whitespace mark that had none (also lines 159 and 163) |
| TextCorrection.DropSpaceAfterKeepsNoSpaceAfter | utils/text_validator.py:158 | a whitespace-after rule never leaves whitespace after a non-whitespace mark that had none (also line 162) |
| TextCorrection.DropSpaceAfterKeepsNoSpaceBefore | utils/text_validator.py:158 | a whitespace-after rule never leaves whitespace before a non-whitespace mark that had none (also line 162) |
| TextCorrection.FixPunctuationBrackets | utils/text_validator.py:155-163 | after the last six rules, no whitespace directly follows `(`, `[` or `"` and none directly precedes `)`, `]` or `"` |
| TextCorrection.FixPunctuation | utils/text_validator.py:147-165 | the eight rules keep the non-whitespace characters, in order; the result has no whitespace directly after `(`, `[` or `"` and none directly before `)`, `]` or `"` |
| TextCorrection.SplitSentences | utils/text_validator.py:170 | `re.split(r'[.!?]+', ...)` gives at least one piece, and no piece holds a terminator |
| TextCorrection.SplitSentencesEndsEmpty | utils/text_validator.py:170 | text that ends in a terminator has an empty last piece, as `re.split` leaves one after the final separator |
| TextCorrection.SplitSentencesRejoin | utils/text_validator.py:170 | there is one more piece than there are runs of terminators, no piece holds a terminator, and putting the runs back between the pieces gives the text |
| TextCorrection.SplitSentencesSingle | utils/text_validator.py:170 | there is exactly one piece exactly when the text has no terminator |
| TextCorrection.CapitalizeFirst | utils/text_validator.py:177 | only the first character changes, and it is no longer a small ASCII letter |
| TextCorrection.CapitalizedSentences | utils/text_validator.py:173-178 | every kept sentence is non-empty, starts with neither whitespace nor a small ASCII letter and does not end in whitespace; blank pieces are dropped |
| TextCorrection.CapitalizedSentencesKept | utils/text_validator.py:173-178 | there is one entry per non-blank piece, in the pieces' order, and the entry for a piece is that piece stripped with its first character upper-cased |
| TextCorrection.CapitalizeAfterStopsChanges | utils/text_validator.py:184 | the second pass keeps the length and changes only small ASCII letters, each to its capital and each right after whitespace |
| TextCorrection.CapitalizeAfterStopsNoop | utils/text_validator.py:184 | the second capitalisation pass changes nothing on sentences already joined by `". "` |
| TextCorrection.Capitalized | utils/text_validator.py:167-186 | the result holds no `!` or `?`; when non-empty it neither starts nor ends with whitespace, does not start with a small ASCII letter and does not end with `.` |
| TextCorrection.FixCapitalization | utils/text_validator.py:167-186 | the sentence loop computes the capitalised text |
| TextCorrection.AutoCorrectOcrErrors | utils/text_validator.py:73-104 | the pipeline is NFKC, then the table, then the contextual correction, then punctuation and capitalisation; whitespace collapsing and the final strip are proved not to change the text |
| TextQuality.Ratio | utils/text_validator.py:281 | a part over a non-empty whole is in [0, 1]; it is 0 exactly for an empty part and 1 exactly for the whole |
| TextQuality.SpanishWordRatio | utils/text_validator.py:196-198 | in [0, 1]; 0 exactly when no distinct word is a common Spanish word; 1 exactly when there are words and all are common Spanish words |
| TextQuality.SpanishCharBonus | utils/text_validator.py:201-202 | in [0, 0.2]; 0 exactly when the lower-cased text holds no Spanish letter; 0.2 exactly when the text is non-empty and at least a fifth of its characters are Spanish letters; otherwise the share of Spanish letters itself |
| TextQuality.DetectLanguageConfidence | utils/text_validator.py:188-210 | Spanish is min(1, word ratio + letter bonus); all scores in [0, 1]; English is 1 − Spanish; unknown is max(0, 1 − 2·Spanish), 0 exactly from Spanish 0.5 up, never above English; text with no Spanish evidence gets (0, 1, 1) |
| TextQuality.AllSpanishWords | utils/text_validator.py:195-210 | text whose words are all common Spanish words scores (1, 0, 0) |
| TextQuality.NoSpanishEvidence | utils/text_validator.py:195-210 | when no word is a common Spanish word, the Spanish score is 0 exactly when the text holds no Spanish letter |
| TextQuality.ValidWordCountAll | utils/text_validator.py:280 | every word is counted valid exactly when every word is alphabetic and longer than one character |
| TextQuality.WordRatio | utils/text_validator.py:274-281 | in [0, 1]; 0 when there are no words |
| TextQuality.WordRatioOne | utils/text_validator.py:274-281 | the ratio is 1 exactly when there are words and all are valid |
| TextQuality.PunctuationRatio | utils/text_validator.py:283-296 | the ratio is one of 0.5, 1.0, 0.7 and 0.3 |
| TextQuality.PunctuationRatioBands | utils/text_validator.py:284-296 | with at least two pieces: 1.0 exactly when the average words per piece is in [10, 25], 0.7 exactly when it is outside that but in [5, 35], 0.3 exactly when it is outside [5, 35] |
| TextQuality.AverageWordsPerPiece | utils/text_validator.py:289 | the average is the number of whitespace-separated words of the pieces joined by spaces, divided by the number of pieces |
| TextQuality.WordTotalJoin | utils/text_validator.py:289 | the sum over pieces of the word counts of each stripped piece equals the word count of all pieces joined by single spaces |
| TextQuality.PunctuationRatioHalf | utils/text_validator.py:285-287 | the ratio is 0.5 exactly when the text has no terminator |
| TextQuality.CapitalizationRatio | utils/text_validator.py:298-310 | in [0, 1] |
| TextQuality.CapitalizationRatioExtremes | utils/text_validator.py:298-310 | the score is 1 exactly when every piece, stripped, starts with an upper-case letter, and 0 exactly when none does |
| TextQuality.CapitalizedCountExtremes | utils/text_validator.py:304-308 | the count equals the number of pieces exactly when all are capitalised, and is 0 exactly when none is |
| TextQuality.CapitalizationScore | utils/text_validator.py:304-310 | the counting loop computes the capitalised share of the sentence pieces |
| TextQuality.CapitalizationRatioCases | utils/text_validator.py:298-310 | empty text scores 0; text ending in a terminator scores below 1, because its empty last piece counts; text without a terminator scores 1 or 0 by its first character |
| TextQuality.SpecialCharsRatio | utils/text_validator.py:312-319 | in [0, 1]; 0 for empty text |
| TextQuality.SpecialCharsRatioExtremes | utils/text_validator.py:312-319 | 0 exactly when no character is problematic; 1 exactly for non-empty text made only of problematic characters |
| TextQuality.LineLengthsEmpty | utils/text_validator.py:328-330 | no line length is kept exactly when every line is blank |
| TextQuality.Variance | utils/text_validator.py:332-333 | the population variance of the line lengths is never negative |
| TextQuality.VarianceOfUniform | utils/text_validator.py:332-333 | equal line lengths have variance 0 |
| TextQuality.Consistency | utils/text_validator.py:336-337 | 1 / (1 + variance/100) is in (0, 1] and is 1 exactly at variance 0 |
| TextQuality.ConsistencyMonotone | utils/text_validator.py:335-336 | a larger variance never raises the consistency, and a strictly larger one strictly lowers it |
| TextQuality.LineConsistency | utils/text_validator.py:321-337 | in [0, 1]; 1 for a single line; 0 when all lines are blank; otherwise positive, and 1 when all non-blank lines have the same stripped length |
| TextQuality.TextQualityScore | utils/text_validator.py:244-272 | in [0, 1]; 0 for blank text |
| TextQuality.TextQualityUnclamped | utils/text_validator.py:264-272 | for non-blank text the weighted sum already lies in [0, 1], so the clamp changes nothing |
| ImageGeometry.ArgMin | utils/image_processor.py:137 | `np.argmin` gives the first index of a smallest key |
| ImageGeometry.ArgMax | utils/image_processor.py:138 | `np.argmax` gives the first index of a largest key |
| ImageGeometry.ArgMinUnique | utils/image_processor.py:137 | the first index of a smallest key is the only answer `np.argmin` can give |
| ImageGeometry.ArgMaxUnique | utils/image_processor.py:138 | the first index of a largest key is the only answer `np.argmax` can give |
| ImageGeometry.TopLeft | utils/image_processor.py:137 | slot 0 is an input point with the smallest x + y |
| ImageGeometry.BottomRight | utils/image_processor.py:138 | slot 2 is an input point with the largest x + y |
| ImageGeometry.TopRight | utils/image_processor.py:142-143 | slot 1 is an input point with the smallest y − x |
| ImageGeometry.BottomLeft | utils/image_processor.py:142-144 | slot 3 is an input point with the largest y − x |
| ImageGeometry.OrderedCorners | utils/image_processor.py:131-145 | the result has four slots and every slot holds one of the input points |
| ImageGeometry.OrderPoints | utils/image_processor.py:131-145 | the array filled slot by slot holds top-left, top-right, bottom-right, bottom-left |
| ImageGeometry.OrderedCornersOfRectangle | utils/image_processor.py:131-145 | the four corners of an upright rectangle, in any order, come out as top-left, top-right, bottom-right, bottom-left |
| ImageGeometry.OrderedCornersOfDiamond | utils/image_processor.py:131-145 | for any diamond the top vertex fills both slot 0 and slot 1 and the left vertex is lost, so the result need not be a rearrangement of the input |
| ImageGeometry.FloorSqrt | utils/image_processor.py:109-115 | `int(np.sqrt(n))` is the r with r² ≤ n < (r + 1)² |
| ImageGeometry.FloorSqrtOfSquare | utils/image_processor.py:109-115 | an exact square gives back its root |
| ImageGeometry.DistanceBounds | utils/image_processor.py:109-114 | the truncated edge length is the same in both directions, at least either coordinate difference and at most their sum |
| ImageGeometry.DestinationSize | utils/image_processor.py:108-115 | the width is the longer of the truncated bottom and top edge lengths; the height is the longer of the right and left ones |
| ImageGeometry.DestinationCorners | utils/image_processor.py:118-123 | destination corners (0, 0), (W − 1, 0), (W − 1, H − 1), (0, H − 1) in that order |
| ImageGeometry.DistanceAlongAxis | utils/image_processor.py:109-115 | along an axis the truncated distance is the exact coordinate difference |
| ImageGeometry.DestinationSizeOfRectangle | utils/image_processor.py:102-115 | an upright rectangle, its corners in any order, is warped to its own width and height |
| ImageProcessor.Gray | utils/image_processor.py:43-46 | the working image is single-channel and of the input's size, and a single-channel input is used as is |
| ImageProcessor.LargestIndex | utils/image_processor.py:90 | `max(contours, key=contourArea)` picks the first contour of largest area |
| ImageProcessor.FourPointTransform | utils/image_processor.py:102-129 | the warp starts from the ordered corners and targets the upright rectangle of the destination size |
| ImageProcessor.FourPointTransformOfRectangle | utils/image_processor.py:102-129 | an upright rectangle is cut out at exactly its own corners and size |
| ImageProcessor.PerspectiveCorrected | utils/image_processor.py:73-100 | no contours, or an outline other than four vertices, leaves the image unchanged; four vertices warp it from their ordered corners |
| ImageProcessor.PerspectiveOfUprightPage | utils/image_processor.py:73-100 | a page outlined by an upright rectangle is cut out at that rectangle |
| ImageProcessor.Insert | utils/image_processor.py:170 | inserting into an ascending sequence keeps it ascending and adds exactly the one value |
| ImageProcessor.Sorted | utils/image_processor.py:170 | the sorted values are ascending and a permutation of the input |
| ImageProcessor.AscendingUnique | utils/image_processor.py:170 | two ascending arrangements of the same values are equal |
| ImageProcessor.MedianSplitsValues | utils/image_processor.py:170 | at least half of the values, in sorted order, lie at or below the median and at least half at or above it |
| ImageProcessor.MedianWithin | utils/image_processor.py:170 | the median lies within any bounds every value respects |
| ImageProcessor.MedianOrderFree | utils/image_processor.py:170 | the median does not depend on the order of the lines |
| ImageProcessor.LineAngle | utils/image_processor.py:166 | for θ in [0, π), the range of `HoughLines`, the tilt lies in [−90, 90); it is 0 exactly for θ = π/2 and positive exactly above it |
| ImageProcessor.LineAngles | utils/image_processor.py:164-167 | one angle θ·180/π − 90 per detected line, in order |
| ImageProcessor.Deskewed | utils/image_processor.py:147-176 | without lines the image is unchanged; otherwise it is rotated by the median angle exactly when that median exceeds 0.5 degrees in absolute value |
| ImageProcessor.DeskewKeepsLevelPage | utils/image_processor.py:170-176 | if every detected line is within half a degree of horizontal, the image is not rotated |
| ImageProcessor.AutoDeskew | utils/image_processor.py:147-176 | the angle loop and the guard compute the skew correction |
| ImageProcessor.Recentred | utils/image_processor.py:194-195 | the adjusted matrix keeps the rotation part and sends the old centre to the centre of the new canvas |
| ImageProcessor.RotationMatrixFixesCentre | utils/image_processor.py:184 | the matrix of `getRotationMatrix2D` leaves its centre in place |
| ImageProcessor.Rotation | utils/image_processor.py:178-202 | the canvas is ⌊h·abs(sin) + w·abs(cos)⌋ wide and ⌊h·abs(cos) + w·abs(sin)⌋ high; the rotation part is the cosine/sine matrix; the pixel centre (w // 2, h // 2) lands at the canvas centre |
| ImageProcessor.RotateImage | utils/image_processor.py:178-202 | adjusting the matrix in place computes that rotation |
| ImageProcessor.RotatedSizeUnturned | utils/image_processor.py:190-191 | with sin = 0 and cos = 1 the canvas has the input size |
| ImageProcessor.RotatedSizeQuarterTurn | utils/image_processor.py:190-191 | with sin = 1 and cos = 0 width and height swap |
| ImageProcessor.RotatedSizeBounds | utils/image_processor.py:187-191 | for a cosine and sine with cos² + sin² = 1, each side of the canvas is at least the image's shorter side and at most the sum of its sides |
| ImageProcessor.Preprocessed | utils/image_processor.py:33-71 | the pipeline ends with the adaptive threshold (255, block 11, C 2) and a 3×3 closing, and its result is single-channel |
| ImageProcessor.PreprocessedKeepsSizeWithoutGeometry | utils/image_processor.py:33-71 | with no page outline and no line found, the result has the input's size |
| ImageProcessor.AdvancedPreprocessing | utils/image_processor.py:33-71 | the step-by-step pipeline computes the preprocessed image |
| ImageProcessor.Sharpness | utils/image_processor.py:233-237 | at most 1, non-negative for a non-negative variance, 1 exactly from variance 1000 up |
| ImageProcessor.Contrast | utils/image_processor.py:239-242 | at most 1, non-negative for a non-negative deviation, 1 exactly from deviation 63.75 up |
| ImageProcessor.Brightness | utils/image_processor.py:244-249 | in [0, 1] for a mean in [0, 255]; 1 exactly at 127.5; 0 at pure black and pure white |
| ImageProcessor.BrightnessSymmetric | utils/image_processor.py:244-249 | dark and light images are penalised alike |
| ImageProcessor.Noise | utils/image_processor.py:251-256 | at most 1, non-negative for a non-negative deviation, 1 exactly from 50 up |
| ImageProcessor.AssessedQuality | utils/image_processor.py:224-231 | the clamped blend is in [0, 1] |
| ImageProcessor.ImageQuality | utils/image_processor.py:204-231 | in [0, 1], measured on the grayscale image |
| ImageProcessor.AssessedQualityUnclamped | utils/image_processor.py:224-231 | for plausible statistics the blend already lies in [0, 1] |
| ImageProcessor.AssessedQualityExtremes | utils/image_processor.py:224-256 | a sharp, contrasted, mid-grey, clean image scores 1; a flat black or white, very noisy one scores 0 |
| ImageProcessor.AssessedQualityMonotone | utils/image_processor.py:224-256 | more sharpness or contrast never lowers the score, more noise never raises it |
| Models.NewDocument | domain/models.py:132-142 | a blank name is refused first, then a missing text; otherwise the fields are kept, with missing tables becoming the empty list |
| Models.TableCount | domain/models.py:158-166 | the count is 0 exactly when there are no tables |
| Models.HasTables | domain/models.py:148-156 | true exactly when the table count is positive |
| Models.WordCount | domain/models.py:168-181 | 0 exactly when the text is blank |
| Models.WordCountOfJoined | domain/models.py:168-181 | text of n tokens joined by spaces has n words |
| Models.NewDocumentWithoutTables | domain/models.py:140-142 | a valid document built without tables has none |
| SystemConfiguration.DefaultConfig | config/system_config.py:16-29 | the defaults: "spa", 300 dpi, threshold 60.0, all enhancements, retry, 30 minutes and table extraction on |
| SystemConfiguration.HighQualityConfig | config/system_config.py:31-42 | 600 dpi, threshold 80.0, all enhancements and retry on, 60 minutes; language and table extraction as default |
| SystemConfiguration.FastConfig | config/system_config.py:44-55 | 150 dpi, threshold 50.0, deskew, denoise and retry off, contrast on, 10 minutes; language and table extraction as default |
| SystemConfiguration.BalancedConfig | config/system_config.py:57-60 | equal to the defaults |
| SystemConfiguration.QualityProfilesTable | config/system_config.py:63-68 | exactly the keys `maximum_quality`, `fast_processing` and `balanced`, bound to the three constructors |
| SystemConfiguration.ProfilesOrdered | config/system_config.py:17-60 | dpi, threshold and time limit each strictly increase from fast to balanced to maximum quality |

## Behaviour of the code worth knowing

- The substitution table is not idempotent. `"  ,"` becomes `" ,"` after one pass and `","` after a
  second, because each pass rewrites `' ,'` once (utils/text_validator.py:89-90).
- `auto_deskew` takes the median over every line `HoughLines` returns and passes that median, not its
  negation, to `rotate_image` (utils/image_processor.py:164-174).
- `fix_punctuation` turns `"a,,b"` into `"a, ,b"`: the second comma is consumed by the first match of
  the space-after-punctuation rule, so it gets no space of its own, and the earlier rule that deletes
  whitespace before a mark has already run (utils/text_validator.py:150-153).

## Left out

- NFKC normalisation is a function parameter of `AutoCorrectOcrErrors`; Unicode tables are not modelled.
- `validate_extracted_data` and its regular-expression table (e-mail, URL, phone, date, number) are not
  modelled: they only pattern-match and return lists, and regular-expression matching is outside the model.
- Character classes are approximations:
  - `str.isalpha`, `str.isupper` and `\w` cover ASCII and Latin-1 letters only;
  - `str.upper` maps ASCII small letters and the Latin-1 small letters U+00E0 to U+00FE except U+00F7;
    it does not turn `ß` into `SS`, `ÿ` into `Ÿ` or `µ` into `Μ`, and leaves every letter outside Latin-1 alone;
  - `\d` is ASCII digits only.
- Python floats are exact reals, so the model has no rounding.
- ImageGeometry.FloorSqrt: the model takes the exact floor square root. The source squares and adds
  `float32` coordinates (`rect` is built as `float32`, utils/image_processor.py:133) and takes a
  `float32` square root, which rounds to nearest. For edges longer than about 4096 px this can
  round up across an integer: for dx = 4019 and dy = 821 the sum is 16826402 = 4102² − 2, whose
  `float32` root rounds to 4102 while the floor root is 4101. The model's edge length is then one
  less than the source's.
- Everything OpenCV and NumPy compute on pixels is an opaque value, not modelled: edges, contours,
  contour area, polygon approximation, Hough lines, cosine and sine, Laplacian, standard deviation,
  mean, median blur. The filters and warps are recorded symbolically, not applied.
- The rotation canvas is the turned bounding box. Pixel interpolation and border replication are not modelled.
- The 5×5 elliptical kernel built in `AdvancedImageProcessor.__init__` is never used, so it is not modelled.
- A warp to a zero width or height is recorded as given; OpenCV's handling of an empty destination size is not modelled.
- `Document.__post_init__` checks that the source file exists. That is filesystem I/O and is not modelled.
- `TextQuality.LineConsistency`: the model proves that equal line lengths give 1, but not the
  converse (that 1 is reached only for equal lengths). Proving that needs positivity of squares of
  reals, which the solver does not settle reliably.
- `TextQuality.CapitalizationScore`: the source's `if not sentences` branch cannot be taken, because
  `re.split` always returns at least one piece. The model has no such branch.
- The three behaviours listed under "Behaviour of the code worth knowing" are facts about specific
  inputs and are not proved as lemmas of their own. `TextCorrection.SpaceAfterPunctSpaced` states the
  general form of the third.
- These parts of the repository are not part of this model:
  - the adapters and ports (PDF rendering, OCR engines, table extraction, storage);
  - the use cases and the interactive menu;
  - `config/__init__.py`;
  - the `language` field of `TextValidator`, which nothing reads.
