# MRZ decoding core of the mrz_native scanner

This project models the part of the Android scanner that turns noisy OCR lines into a
Machine Readable Zone record:

- the fixed-width field extractors of `MrzParser`: `parseTD3`, `parseTD2` and `parseTD1`, their
  shared `<<` name rule, and `autoDetect`;
- the string helpers of `MainActivity`: `normalizeLine`, `padToLength`, `isLengthApprox`,
  `looksLikeMrzLine`, and the OCR confusion substitutions `applyMap`, `applyMapToList` and
  `aggressiveMap`;
- the row assembler `buildRowCandidates`. It filters the fragments, sorts them by vertical
  centre, splits them after the largest vertical gap, and joins each cluster left to right;
- the TD3-only resolver `findAndParseMrzTD3Only` and its text-only form
  `findAndParseMrzStringsTD3`;
- the bounded correction search `tryHeuristicCorrectionsTD3`. It tries 10 single
  substitutions, then 35 neighbour-bounded pairs, then one aggressive pass;
- the stabilisation tracker. Its fields `isScanning`, `lastCandidate` and `stableHits` are
  driven by `onCandidateDetected` and `resetScanning`, in the order `handleVisionText` fixes.

Layout, one module per file:

| module | file | contents |
|---|---|---|
| `Wrappers` | `wrappers.dfy` | `Option`, which stands for a Java reference that may be null |
| `JavaText` | `java_text.dfy` | the `java.lang.String` operations the code uses: `trim`, `replace`, `split("<<")`, ASCII `toUpperCase` |
| `MrzLines` | `mrz_lines.dfy` | normalisation, padding and the two resolver guards |
| `MrzParser` | `mrz_parser.dfy` | `ParsedMrz` and the three parsers; `autoDetect`; a TD3 encoder for the round trip; the documented specimens |
| `Substitutions` | `substitutions.dfy` | the confusion maps |
| `RowAssembly` | `row_assembly.dfy` | `OcrLine`, the stable sort, `buildRowCandidates` |
| `Resolver` | `resolver.dfy` | the pair loop of `findAndParseMrzTD3Only` |
| `Corrections` | `corrections.dfy` | the correction search |
| `Scanner` | `scanner.dfy` | the tracker class |

Java `String` values are `seq<char>`. A reference the code tests for null is an `Option`.
`Collections.sort` with a coordinate comparator is a stable insertion sort (`RowAssembly.SortBy`)
over an `Axis`. Each state-changing or looping operation is a method. Each method is proved
equal to a specification function, and the properties are lemmas about those functions.

The main result is about the correction search. Every confusion substitution keeps three
things about a line: its length, its `<` count, and a leading `P` or `V`. Both resolver guards
read only those. So every correction attempt succeeds exactly when the uncorrected texts
resolve. The search is therefore decided by its first attempt, `O`→`0`
(`Corrections.SearchDecidedByFirstAttempt`).

The code and its own comments, and the ICAO Doc 9303 layouts the comments refer to, disagree in
several places. The model follows the code:

- No check digit is computed or compared anywhere. `parseTD3` accepts any two lines of 44 or
  more characters.
- `parseTD3Relaxed` is called but never defined, so the model omits its four calls. The
  swapped-order `parseTD3` retries are kept in the pair loop, and they are proved unreachable,
  because `parseTD3` never refuses a padded pair (`Resolver.TryPairNeverRefuses`).
- The resolver tries only TD3, not TD1 or TD2.
- With at most two kept fragments the assembler does not merge fragments at the same height.
  They stay two rows (`RowAssembly.TwoFragmentsStayApart`).
- The documented ICAO TD3 specimen is refused by the filler-ratio guard. Its second row has
  6 fillers where a 44-character row needs 8 (`Resolver.SpecimenNotResolved`).
- The TD1 example in the `parseTD1` comment has a 29-character third row. `parseTD1` refuses it
  (`MrzParser.DocumentedTD1ExampleRefused`).

## Model

| member | source | states |
|---|---|---|
| JavaText.Trim | app/src/main/java/com/mrz_native/MrzParser.java:43 | `String.trim`: the result has no blank character at either end, is no longer than its input, and uses only the input's characters. It is empty exactly when the input is all blanks, and a trimmed string is its own trim |
| JavaText.TrimIsBlankCut | app/src/main/java/com/mrz_native/MrzParser.java:43 | `trim` cuts only at the ends: its result is a contiguous slice of the input, with nothing but blank characters before and after that slice |
| JavaText.ReplaceChar | app/src/main/java/com/mrz_native/MrzParser.java:46 | `replace(char, char)`: same length, each position holding `from` holds `to`, every other position is unchanged, and `from` no longer occurs |
| JavaText.RemoveFiller | app/src/main/java/com/mrz_native/MrzParser.java:50 | `replace("<", "")`: no `<` remains, the length drops by exactly the number of fillers, and a field without fillers is unchanged |
| JavaText.RemoveFillerPadded | app/src/main/java/com/mrz_native/MrzParser.java:50 | a field padded with fillers gives back the unpadded field |
| JavaText.UpperCase | app/src/main/java/com/mrz_native/MainActivity.java:249 | ASCII `toUpperCase`: same length, each character upper-cased, and no lower-case letter remains |
| JavaText.SplitJoin | app/src/main/java/com/mrz_native/MrzParser.java:45 | splitting at `<<` from the left loses nothing: joining the pieces with `<<` rebuilds the text |
| JavaText.SplitAfterClean | app/src/main/java/com/mrz_native/MrzParser.java:45 | a surname without double fillers, followed by `<<`, is exactly the first piece of the split |
| JavaText.Split | app/src/main/java/com/mrz_native/MrzParser.java:45 | `String.split` is a prefix of the full list of pieces that drops only empty pieces. Without a separator it is the whole text; otherwise it is empty or its last piece is non-empty, so every trailing empty piece is dropped |
| JavaText.SplitPieceOr | app/src/main/java/com/mrz_native/MrzParser.java:46-47 | reading piece 0 or 1 with `""` as the default gives the same text whether or not trailing empty pieces were dropped |
| MrzLines.NormalizeLine | app/src/main/java/com/mrz_native/MainActivity.java:247-252 | the normalised line holds only `A`-`Z`, `0`-`9` and `<`, and is no longer than the raw text |
| MrzLines.NormalizeKeepsFillers | app/src/main/java/com/mrz_native/MainActivity.java:247-252 | normalisation keeps every filler of the raw text |
| MrzLines.NormalizeFixedPoint | app/src/main/java/com/mrz_native/MainActivity.java:247-252 | a line is left unchanged by normalisation if and only if it is already in the MRZ alphabet |
| MrzLines.NormalizeIdempotent | app/src/main/java/com/mrz_native/MainActivity.java:247-252 | normalising twice gives the same line as normalising once |
| MrzLines.Padded | app/src/main/java/com/mrz_native/MainActivity.java:346-353 | the padded line has exactly the requested length. Each position holds the upper-cased input character if there is one, else `<`. A null line pads to all fillers |
| MrzLines.PadToLength | app/src/main/java/com/mrz_native/MainActivity.java:346-353 | the append loop and the cut build exactly the padded line |
| MrzLines.PaddedIdempotent | app/src/main/java/com/mrz_native/MainActivity.java:346-353 | padding an already padded line, from any input, to the same length changes nothing |
| MrzLines.PaddedPrefix | app/src/main/java/com/mrz_native/MainActivity.java:349 | a long enough MRZ line is cut to its first `len` characters |
| MrzLines.PaddedShort | app/src/main/java/com/mrz_native/MainActivity.java:350-351 | a short line is its upper-cased text followed by exactly the missing number of fillers |
| MrzLines.PaddedFillerCount | app/src/main/java/com/mrz_native/MainActivity.java:350-351 | padding a short line adds exactly one filler per missing character |
| MrzLines.LengthApproxTD3Window | app/src/main/java/com/mrz_native/MainActivity.java:339-344 | `isLengthApprox(s, 44)` holds exactly for lines of 38 to 46 characters. A null line fails it, and fails the filler-ratio rule too |
| MrzLines.LooksLikeMrzLine | app/src/main/java/com/mrz_native/MainActivity.java:355-362 | the counting loop answers the filler-ratio rule: a non-null line with at least max(3, length/5) fillers |
| MrzLines.LooksLikeMrzThreshold | app/src/main/java/com/mrz_native/MainActivity.java:360-361 | below 20 characters the rule needs three fillers. From 20 on, five times the filler count must reach the length rounded down to a multiple of 5 |
| MrzLines.LooksLikeTD3Row | app/src/main/java/com/mrz_native/MainActivity.java:360-361 | a 44-character row passes the rule exactly when it holds at least 8 fillers |
| MrzLines.SameShapeLooksAlike | app/src/main/java/com/mrz_native/MainActivity.java:339-362 | two lines of equal length, equal filler count and equal leading P/V get the same answer from both guards |
| MrzParser.DecodeName | app/src/main/java/com/mrz_native/MrzParser.java:45-48 | the decoded name has no filler and no blank at either end |
| MrzParser.DecodeNameRoundTrip | app/src/main/java/com/mrz_native/MrzParser.java:45-48 | a name field written as surname, `<<`, given names and any run of trailing fillers decodes to the words of both parts separated by single spaces |
| MrzParser.Record | app/src/main/java/com/mrz_native/MrzParser.java:5-28 | a record built from fixed-width slices is well shaped. The type is at most 2 characters and trimmed, the countries have 3, the dates 6, the gender 1, and the numbers carry no fillers |
| MrzParser.ParseTD3 | app/src/main/java/com/mrz_native/MrzParser.java:38-62 | a record comes back if and only if both lines are present and at least 44 long, with no checksum involved. Each field is its fixed slice. The document number is at most 9 characters and the personal number at most 14, both without fillers. The name is decoded from `l1[5..]` |
| MrzParser.ParseTD2 | app/src/main/java/com/mrz_native/MrzParser.java:72-96 | a record comes back if and only if both lines are present and at least 36 long, with no checksum involved. Every field is the same slice as in TD3, except that the personal number is `l2[28..35]` without fillers, at most 7 characters |
| MrzParser.TD2AgreesWithTD3 | app/src/main/java/com/mrz_native/MrzParser.java:72-96 | on 44-character rows the TD2 and TD3 readings give the same record except for the shorter personal number |
| MrzParser.ParseTD1 | app/src/main/java/com/mrz_native/MrzParser.java:107-132 | a record comes back if and only if all three lines are present and at least 30 long. The type is `l1[0..2]` trimmed and the country is `l1[2..5]`. The document number is `l1[5..14]` without fillers. The dates, gender and nationality are the cited slices of row 2, and the name is decoded from the whole third row. This is the corrected personal number `l2[18..29]`; see Findings |
| MrzParser.ParseTD1AsWritten | app/src/main/java/com/mrz_native/MrzParser.java:120 | the code as written: the same record as the corrected reading except that the personal number is all of `l2[18..]` without fillers |
| MrzParser.TD1IgnoresCompositeDigit | app/src/main/java/com/mrz_native/MrzParser.java:107-132 | the corrected TD1 reading does not depend on the composite check digit at position 29 of row 2 |
| MrzParser.TD1AsWrittenKeepsCompositeDigit | app/src/main/java/com/mrz_native/MrzParser.java:120 | as written, a non-filler composite digit is appended to the personal number |
| MrzParser.SpecimenTD1PersonalNumber | app/src/main/java/com/mrz_native/MrzParser.java:103-105 | for the documented TD1 row 2, the personal number is `"6"` as written and empty as intended |
| MrzParser.DocumentedTD1ExampleRefused | app/src/main/java/com/mrz_native/MrzParser.java:103-109 | the documented TD1 example is refused, because its third row is 29 characters long |
| MrzParser.CountNonBlank | app/src/main/java/com/mrz_native/MrzParser.java:141-142 | the counter equals the number of lines that are neither null nor blank after trimming |
| MrzParser.AutoDetectAsWritten | app/src/main/java/com/mrz_native/MrzParser.java:137-154 | the code as written. A null array, or a count of non-blank lines other than 2 or 3, gives null. With two non-blank lines it throws a null pointer exception exactly when `lines[0]` is null. Otherwise it reads `lines[0]` and `lines[1]` as TD3 when the trimmed `lines[0]` is longer than 36, and as TD2 otherwise. With three non-blank lines it reads `lines[0..2]` as TD1 |
| MrzParser.AutoDetect | app/src/main/java/com/mrz_native/MrzParser.java:137-154 | the corrected dispatch, which reads the non-blank lines themselves. A record comes back only for two or three non-blank lines. Two are read as TD3 when the first trimmed is longer than 36, and as TD2 otherwise. Three are read as TD1 |
| MrzParser.AutoDetectSkipsBlank | app/src/main/java/com/mrz_native/MrzParser.java:140-142 | in the corrected dispatch, a null or blank line anywhere changes nothing |
| MrzParser.AutoDetectAgreesWithoutBlanks | app/src/main/java/com/mrz_native/MrzParser.java:144-150 | when no line is blank, two lines give the same result in the code as written and in the corrected dispatch (TD3 or TD2). Three lines go to TD1 in both, which differ only in the personal number (the TD1 finding) |
| MrzParser.AutoDetectNullFirstLine | app/src/main/java/com/mrz_native/MrzParser.java:146 | a leading null before two good rows throws as written, while the corrected dispatch parses the two rows |
| MrzParser.AutoDetectBlankFirstLine | app/src/main/java/com/mrz_native/MrzParser.java:146-148 | a leading blank line before two good rows makes the code as written return null, while the corrected dispatch parses the two rows |
| MrzParser.EncodeTD3Row1 | app/src/main/java/com/mrz_native/MrzParser.java:34-36 | the encoder used for the round trip writes a first row of exactly 44 characters |
| MrzParser.EncodeTD3Row2 | app/src/main/java/com/mrz_native/MrzParser.java:34-36 | the encoder writes a second row of exactly 44 characters |
| MrzParser.TD3RoundTrip | app/src/main/java/com/mrz_native/MrzParser.java:38-62 | rows written from valid fields parse back to exactly those fields, with the name in its spaced form |
| MrzParser.SpecimenTD3 | app/src/main/java/com/mrz_native/MrzParser.java:34-62 | the documented passport rows parse to name `ERIKSSON ANNA MARIA`, document number `L898902C3`, expiry `120415` and personal number `ZE184226B` |
| Substitutions.MapChars | app/src/main/java/com/mrz_native/MainActivity.java:428-435 | `applyMap` keeps the length and writes `to` exactly at the positions that held `from` |
| Substitutions.ApplyMap | app/src/main/java/com/mrz_native/MainActivity.java:428-435 | a null line stays null and a present line stays present |
| Substitutions.ApplyMapIsReplace | app/src/main/java/com/mrz_native/MainActivity.java:428-435 | the per-character copy agrees with `String.replace` |
| Substitutions.ApplyMapAbsent | app/src/main/java/com/mrz_native/MainActivity.java:428-435 | a substitution whose letter is absent changes nothing |
| Substitutions.ApplyMapToList | app/src/main/java/com/mrz_native/MainActivity.java:422-426 | the new list holds the substituted lines in their original order and has the same length |
| Substitutions.AggressiveMap | app/src/main/java/com/mrz_native/MainActivity.java:437-445 | the aggressive pass keeps null and length. No `O Q D I L Z S B G T` remains, and every other character is unchanged |
| Substitutions.AggressiveIsAllMaps | app/src/main/java/com/mrz_native/MainActivity.java:437-445 | the aggressive pass is the ten substitutions applied in its own order |
| Substitutions.AggressiveOrderIrrelevant | app/src/main/java/com/mrz_native/MainActivity.java:372-375 | the aggressive pass equals the ten search substitutions applied in the search's order |
| Substitutions.ConfusionMapsHarmless | app/src/main/java/com/mrz_native/MainActivity.java:372-375 | no substitution reads or writes a filler, a `P` or a `V` |
| Substitutions.ApplyAllKeepsShape | app/src/main/java/com/mrz_native/MainActivity.java:290-291 | harmless substitutions keep a line's length, its filler count and a leading P/V |
| Substitutions.ApplyAllAppend | app/src/main/java/com/mrz_native/MainActivity.java:428-435 | substituting a concatenation equals concatenating the substituted parts |
| RowAssembly.SortByOrdered | app/src/main/java/com/mrz_native/MainActivity.java:460 | the sort orders the lines by the chosen coordinate |
| RowAssembly.SortByPermutes | app/src/main/java/com/mrz_native/MainActivity.java:460 | the sort is a permutation of its input |
| RowAssembly.SortStable | app/src/main/java/com/mrz_native/MainActivity.java:460 | the sort is stable: lines with equal keys keep their input order |
| RowAssembly.SortSorted | app/src/main/java/com/mrz_native/MainActivity.java:227 | sorting an already ordered list changes nothing |
| RowAssembly.KeptLines | app/src/main/java/com/mrz_native/MainActivity.java:451-456 | every kept fragment passes the filter, and none is added |
| RowAssembly.KeptLinesExact | app/src/main/java/com/mrz_native/MainActivity.java:451-456 | a fragment is kept if and only if its text has at least 12 characters or looks like MRZ |
| RowAssembly.KeepCandidates | app/src/main/java/com/mrz_native/MainActivity.java:451-456 | the filter loop keeps exactly the kept fragments, in input order |
| RowAssembly.FirstMaxGapIsFirstLargest | app/src/main/java/com/mrz_native/MainActivity.java:471-476 | the split index has the largest vertical gap, and no earlier gap is as large |
| RowAssembly.FindSplit | app/src/main/java/com/mrz_native/MainActivity.java:469-476 | the strict-greater scan stops at the first largest gap |
| RowAssembly.NormsOf | app/src/main/java/com/mrz_native/MainActivity.java:464-467 | the loop collects the fragments' texts in order |
| RowAssembly.Concatenate | app/src/main/java/com/mrz_native/MainActivity.java:482-486 | the builder loop produces the cluster's texts joined in order |
| RowAssembly.JoinedLength | app/src/main/java/com/mrz_native/MainActivity.java:482-486 | a joined row is as long as its fragments together |
| RowAssembly.SortTotalLength | app/src/main/java/com/mrz_native/MainActivity.java:460 | sorting keeps the total character count |
| RowAssembly.RowCandidates | app/src/main/java/com/mrz_native/MainActivity.java:448-492 | at most two rows come back, and no more rows than kept fragments. So an input with nothing kept gives no rows |
| RowAssembly.BuildRowCandidates | app/src/main/java/com/mrz_native/MainActivity.java:448-492 | the method computes exactly those rows |
| RowAssembly.RowCandidatesFew | app/src/main/java/com/mrz_native/MainActivity.java:462-468 | with one or two kept fragments, their texts come back one row each, ordered by left edge. At equal left edges the higher one comes first, and at equal heights too the one given first, because both sorts are stable |
| RowAssembly.RowCandidatesSplit | app/src/main/java/com/mrz_native/MainActivity.java:469-491 | with three or more, exactly two rows come back. They are split after the first largest vertical gap, each cluster is joined left to right, and no character is lost or added |
| RowAssembly.SplitRowsShape | app/src/main/java/com/mrz_native/MainActivity.java:478-491 | the two clusters are the lines up to and after the first largest gap, each joined left to right |
| RowAssembly.TwoFragmentsStayApart | app/src/main/java/com/mrz_native/MainActivity.java:462-468 | two fragments at the same height come back as two rows in left-to-right order, not merged |
| RowAssembly.ThreeFragmentsMerge | app/src/main/java/com/mrz_native/MainActivity.java:469-491 | with a third fragment lower down, the two at the same height are merged left to right into the first row |
| RowAssembly.Unplaced | app/src/main/java/com/mrz_native/MainActivity.java:418 | texts without coordinates become fragments at the origin, in order |
| RowAssembly.RowCandidatesUnplaced | app/src/main/java/com/mrz_native/MainActivity.java:415-420 | for fragments without coordinates, at most two kept texts come back as they are. Otherwise the first kept text is row 1 and the rest joined is row 2 |
| Resolver.TryPairNeverRefuses | app/src/main/java/com/mrz_native/MainActivity.java:292-310 | `parseTD3` never refuses a pair padded to 44, so the relaxed and swapped retries are unreachable |
| Resolver.TryPairFields | app/src/main/java/com/mrz_native/MainActivity.java:292-297 | a padded pair yields a well-shaped record. Its name, document number and expiry are read from the padded rows |
| Resolver.PairLoopNoneIff | app/src/main/java/com/mrz_native/MainActivity.java:286-336 | the resolver finds nothing if and only if no adjacent pair satisfies either guard |
| Resolver.PairLoopFirstQualifying | app/src/main/java/com/mrz_native/MainActivity.java:285-333 | the resolver returns the padded parse of the first adjacent pair that satisfies a guard |
| Resolver.ResolveTwoRows | app/src/main/java/com/mrz_native/MainActivity.java:286-336 | with at most two rows, a record comes back exactly when there are two rows and they qualify |
| Resolver.ResolveByShape | app/src/main/java/com/mrz_native/MainActivity.java:285-336 | rows of the same shape either both resolve or both fail |
| Resolver.FindAndParseMrzTD3Only | app/src/main/java/com/mrz_native/MainActivity.java:280-337 | the method returns exactly the resolver's answer on the assembled rows |
| Resolver.ParsePadded | app/src/main/java/com/mrz_native/MainActivity.java:292-299 | padding and parsing a pair always produces a record |
| Resolver.FindAndParseMrzStringsTD3 | app/src/main/java/com/mrz_native/MainActivity.java:415-420 | texts are resolved as fragments without coordinates |
| Resolver.SparseSecondRowRefused | app/src/main/java/com/mrz_native/MainActivity.java:290-314 | two long texts are refused when the second one fails the filler-ratio rule |
| Resolver.SpecimenNotResolved | app/src/main/java/com/mrz_native/MainActivity.java:290-314 | the documented ICAO passport rows are refused, because row 2 has 6 fillers and needs 8 |
| Corrections.PlanShape | app/src/main/java/com/mrz_native/MainActivity.java:376-410 | the search makes at most 46 attempts, O→0 first and the aggressive pass last |
| Corrections.PairsFromSize | app/src/main/java/com/mrz_native/MainActivity.java:388-398 | the neighbour bound gives exactly 35 ordered pairs |
| Corrections.PlanPhases | app/src/main/java/com/mrz_native/MainActivity.java:376-412 | singles come first, then pairs, then the aggressive pass. The first phase that succeeds decides |
| Corrections.FirstSuccessAppend | app/src/main/java/com/mrz_native/MainActivity.java:376-412 | the search over two phases is the first phase's success, or else the second phase's answer |
| Corrections.AggressiveMapToList | app/src/main/java/com/mrz_native/MainActivity.java:402-405 | the loop builds the aggressively mapped texts in order |
| Corrections.TrySingleMaps | app/src/main/java/com/mrz_native/MainActivity.java:378-385 | the single-map loop returns the first success among the ten singles |
| Corrections.TryPairsWith | app/src/main/java/com/mrz_native/MainActivity.java:389-397 | the inner loop returns the first success among map i paired with each later map within the neighbour bound |
| Corrections.TryPairMaps | app/src/main/java/com/mrz_native/MainActivity.java:388-398 | the nested loops return the first success among the 35 pairs |
| Corrections.TryAggressive | app/src/main/java/com/mrz_native/MainActivity.java:402-410 | the aggressive attempt resolves the aggressively mapped texts |
| Corrections.TryHeuristicCorrectionsTD3 | app/src/main/java/com/mrz_native/MainActivity.java:366-413 | the search returns the first success of the 46-attempt plan, over texts it does not change |
| Corrections.CorrectedShape | app/src/main/java/com/mrz_native/MainActivity.java:378-410 | every attempt's texts have the same shapes as the originals |
| Corrections.ResolveNormsByShape | app/src/main/java/com/mrz_native/MainActivity.java:415-420 | texts of the same shapes either both resolve or both fail, through filtering, merging and both guards |
| Corrections.AttemptDecided | app/src/main/java/com/mrz_native/MainActivity.java:376-410 | every attempt succeeds if and only if the uncorrected texts resolve |
| Corrections.SearchDecidedByFirstAttempt | app/src/main/java/com/mrz_native/MainActivity.java:366-413 | the search returns the O→0 reading when the texts resolve, and nothing otherwise. The other 45 attempts never decide anything |
| Corrections.SpecimenNotCorrected | app/src/main/java/com/mrz_native/MainActivity.java:366-413 | no correction rescues the documented passport rows |
| Scanner.SafeEquals | app/src/main/java/com/mrz_native/MainActivity.java:274-278 | true exactly when both are null or both hold equal text |
| Scanner.Tracker.constructor | app/src/main/java/com/mrz_native/MainActivity.java:63-67 | a new tracker is scanning, with no candidate and no hits |
| Scanner.Tracker.OnCandidateDetected | app/src/main/java/com/mrz_native/MainActivity.java:254-272 | the fields and the verdict follow the detection transition: count an agreeing candidate, restart from a new one, and stop scanning at 2 hits |
| Scanner.Tracker.ResetScanning | app/src/main/java/com/mrz_native/MainActivity.java:535-538 | the tracker is back to scanning, with no candidate and no hits |
| Scanner.Tracker.HandleVisionText | app/src/main/java/com/mrz_native/MainActivity.java:203-245 | the fields and the verdict follow the pass transition: sort, resolve directly, then correct |
| Scanner.Tracker.OnRecognised | app/src/main/java/com/mrz_native/MainActivity.java:191 | a pass is handled only while scanning |
| Scanner.InitialInv | app/src/main/java/com/mrz_native/MainActivity.java:63-67 | the initial state is scanning and satisfies the tracker invariant: a candidate is remembered exactly when the count is positive, and scanning continues exactly while the count is below 2 |
| Scanner.DetectKeepsInv | app/src/main/java/com/mrz_native/MainActivity.java:254-272 | a detection while scanning keeps the invariant |
| Scanner.DetectNothing | app/src/main/java/com/mrz_native/MainActivity.java:255 | a null candidate changes nothing |
| Scanner.DisagreementRestarts | app/src/main/java/com/mrz_native/MainActivity.java:262-265 | a disagreeing or first candidate replaces the remembered one and restarts the count at 1 |
| Scanner.AcceptanceNeedsAgreement | app/src/main/java/com/mrz_native/MainActivity.java:257-271 | acceptance happens only when the previous pass agreed on document number, name and expiry. The tracker keeps the earlier record and reports the later one |
| Scanner.TwoAgreeingPassesAccept | app/src/main/java/com/mrz_native/MainActivity.java:254-272 | from a fresh start, two agreeing passes accept the second record |
| Scanner.HandleTextKeepsInv | app/src/main/java/com/mrz_native/MainActivity.java:203-245 | a pass handled while scanning keeps the invariant |
| Scanner.AcceptedIsFinal | app/src/main/java/com/mrz_native/MainActivity.java:191 | once a record is accepted, later passes change nothing until a reset |
| Scanner.HandleTextOrder | app/src/main/java/com/mrz_native/MainActivity.java:220-244 | the direct reading wins. Otherwise the O→0 correction is used exactly when the texts resolve without coordinates. Otherwise the "no MRZ" message is shown |

## Left out

- Camera setup, permissions, focus, torch and region-of-interest arithmetic: these are Android and float geometry.
- The ML Kit recogniser, its listeners, and the in-flight and timestamp throttle: these are asynchronous and clock-driven. One recognition pass is a sequential call.
- Extracting lines from ML Kit text blocks (MainActivity.java:205-218): these are foreign types. A pass takes a sequence of `OcrLine` values with integer coordinates.
- The UI messages, toasts, logging and the success screens: only the verdict is kept, meaning "accepted, with the corrected flag" or "no MRZ".
- Unicode `toUpperCase` and general regular expressions: the model covers ASCII upper-casing and the regex classes the code uses (`\s`, `[^A-Z0-9<]`).
- `parseTD3Relaxed` is not part of this model, because it is undefined. Its four calls (MainActivity.java:298-301, 307-310, 321-324, 329-332) are omitted from `Resolver.PairLoop`. Only the direct and swapped `parseTD3` attempts are kept, and the swapped ones are proved unreachable.
- The three-argument `OcrLine` construction at MainActivity.java:418: it matches no constructor. It is modelled as a fragment with zero coordinates.
- `ParsedMrz.java` is not part of this model. The record of MrzParser.java:5-28 is used. The unused `Pair` class is also left out.
- Null lists and null list elements outside `autoDetect`: the OCR lists are never null there.
- The `try`/`catch` blocks of the parsers: every slice is within bounds once the length checks pass, so they never catch.
- The volatile fields and threading: one pass is handled at a time.
- Corrections.TryHeuristicCorrectionsTD3: the nested loops of the source are split into one method per phase. The early returns become the first-success specification.
- RowAssembly.BuildRowCandidates: `Collections.sort` sorts the list in place. The model sorts a value with a stable insertion sort, so aliasing of the sorted list is not modelled.

## Findings

| source | as written | input that shows it | evidently intended | confidence | as-written member | corrected member |
|---|---|---|---|---|---|---|
| app/src/main/java/com/mrz_native/MrzParser.java:120 | `personalNumber` is all of `l2[18..]` without fillers, so it includes the composite check digit at position 29 | the documented TD1 row `7408122F1204159UTO<<<<<<<<<<<6` gives personal number `"6"` | the optional data `l2[18..29]`, excluding the composite digit as TD3 and TD2 exclude theirs | not executed | MrzParser.ParseTD1AsWritten (MrzParser.TD1AsWrittenKeepsCompositeDigit, MrzParser.SpecimenTD1PersonalNumber) | MrzParser.ParseTD1 (MrzParser.TD1IgnoresCompositeDigit) |
| app/src/main/java/com/mrz_native/MrzParser.java:141-150 | the non-blank lines are counted, but `lines[0]`, `lines[1]` and `lines[2]` are read by position | `[null, row1, row2]` throws a null pointer exception; `[" ", row1, row2]` returns null | parse the non-blank lines themselves | not executed | MrzParser.AutoDetectAsWritten (MrzParser.AutoDetectNullFirstLine, MrzParser.AutoDetectBlankFirstLine) | MrzParser.AutoDetect (MrzParser.AutoDetectSkipsBlank, MrzParser.AutoDetectAgreesWithoutBlanks) |
