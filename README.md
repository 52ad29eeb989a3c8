# Advent of Code 2025, day 1 part 1 — a Dafny model

This project models the day 1, part 1 solver and its input loader.

A safe's dial shows positions 0 to 99 and starts at 50. The input file holds one
rotation per line, `L<distance>` or `R<distance>`. Each rotation turns the dial left
(subtracting) or right (adding) by the distance, modulo 100. The password is the
number of rotations after which the dial sits exactly on 0.

The modules follow the source files:

- `Utils` (`utils.dfy`) models `src/utils.ts`:
  - the number brands `Int`, `Positive`, `PositiveInt`, `DayNumber` and `DayPart`,
    over real numbers;
  - the pure part of `inputLines`: split on `"\n"`, drop one trailing empty line,
    fail on an empty result.
- `Decimal` (`decimal.dfy`) holds decimal digit strings. They are used to decode and
  encode a rotation's distance.
- `Day1Part1` (`day1_part1.dfy`) models `src/day1/part1.ts`:
  - the two-stage `DialStep` decoding and encoding and its error message;
  - `DIRECTION_TO_COEF`;
  - `loopIteration`, with JavaScript's truncating `%` written out;
  - the `program` fold, as a recursive specification `Iterate` and an imperative
    `Program` loop proved equal to it.
- `Day1Examples` (`day1_examples.dfy`) restates the repository's own test cases as
  lemmas.

The main results are:

- Decoding and encoding a step are inverse, in both directions. Going from line to
  step and back gives the line again exactly when the distance has no leading zero.
- A loop step's new dial equals the mathematical `(dial + coef * distance) mod 100`.
  It always lies in `0..99`.
- The program succeeds exactly when the file is not empty and every line it loads
  decodes. When the fold over the lines fails, the error names the first line that
  does not decode.
- The final password equals the number of zero landings of the running sum of signed
  distances, starting from 50.
- On success the password lies between 0 and the number of lines loaded.

## Model

| member | source | states |
|---|---|---|
| Utils.PositiveInt | src/utils.ts:10-17 | a number passes both the integer and the positivity brand exactly when it is an integer of at least 1 |
| Utils.IntAcceptsIntegers | src/utils.ts:4-8 | the integer brand accepts every integer |
| Utils.IntRejectsFractions | src/utils.ts:4-8 | the integer brand rejects every number strictly between two consecutive integers |
| Utils.DayNumber | src/utils.ts:19-23 | the day brand accepts exactly the twelve numbers 1 to 12 |
| Utils.DayPart | src/utils.ts:25-29 | the part brand accepts exactly the numbers 1 and 2 |
| Utils.Split | src/utils.ts:62 | splitting on newline yields one more piece than there are newlines |
| Utils.SplitNewlineFree | src/utils.ts:62 | no piece of a split holds a newline |
| Utils.JoinOfSplit | src/utils.ts:62 | joining the pieces of a split with newlines gives back the original text |
| Utils.SplitOfJoin | src/utils.ts:62 | splitting a newline-join of newline-free pieces gives back exactly those pieces |
| Utils.LastPieceEmpty | src/utils.ts:62-66 | the last piece of a split is empty exactly when the text is empty or ends with a newline |
| Utils.DropTrailingEmpty | src/utils.ts:63-72 | the result is a prefix of the lines, one shorter exactly when the last line is empty and unchanged otherwise |
| Utils.InputLines | src/utils.ts:59-79 | loading fails with the empty-file error exactly when the content is empty; the lines loaded are non-empty, newline-free, and rebuild the content once joined with newlines plus the final newline if there was one |
| Utils.InputLinesOfTerminated | src/utils.ts:59-79 | loading newline-terminated, newline-joined lines gives back exactly those lines |
| Utils.InputLinesDropsTerminator | src/utils.spec.ts:7-22 | "L44\nR35\nR4\n" loads as the three lines L44, R35 and R4 |
| Utils.InputLinesEmptyFails | src/utils.spec.ts:25-40 | empty content fails with the empty-file error |
| Utils.InputLinesKeepsOtherBlanks | src/utils.ts:63-78 | only one trailing empty line is dropped: "\n" loads as one empty line and "L44\n\n" keeps its second, empty line |
| Utils.InputLinesKeepsInteriorBlank | src/utils.ts:63-72 | an empty line in the middle is kept, and content without a final newline keeps its last line |
| Decimal.NatToString | src/day1/part1.ts:77 | the decimal form of a number is a non-empty digit string that starts with 0 only for zero |
| Decimal.ParseNatToString | src/day1/part1.ts:58-62 | reading back the decimal form of a number gives the number |
| Decimal.NatToStringOfParse | src/day1/part1.ts:74-78 | a digit string without a leading zero is the decimal form of its own value |
| Decimal.ParseNatPositive | src/day1/part1.ts:29-31 | a digit string has a positive value exactly when one of its digits is not 0 |
| Day1Part1.Coef | src/day1/part1.ts:17-20 | L maps to -1 and R maps to 1, in both directions |
| Day1Part1.SplitLine | src/day1/part1.ts:38-41 | the first stage cuts a line into a direction part of at most one character and the rest, which concatenate back to the line |
| Day1Part1.DecodeDirection | src/day1/part1.ts:26 | a direction decodes exactly when it is the literal "L" or "R", and it re-encodes to the same string |
| Day1Part1.DecodeDistanceExactly | src/day1/part1.ts:29-31 | a distance decodes exactly when it is a digit string with a non-zero digit whose value is at most 2^53 - 1, the largest safe integer; its value is the string's decimal value, and it re-encodes to the string when there is no leading zero |
| Day1Part1.DecodeStepRejectsUnsafe | src/day1/part1.ts:29-31 | a line whose distance is a positive integer above 2^53 - 1 is rejected with that line's error |
| Day1Part1.DecodeStep | src/day1/part1.ts:63-71 | every decoding failure carries the offending line itself |
| Day1Part1.DecodeStepExactly | src/day1/part1.ts:53-73 | a line decodes exactly when its first character is L or R and the rest is a positive decimal; on success the step's direction and distance are those two parts |
| Day1Part1.EncodeDecodeStep | src/day1/part1.ts:74-78 | decoding the encoding of any step gives back that step |
| Day1Part1.DecodeEncodeStep | src/day1/part1.ts:33-81 | encoding a decoded step gives back the line exactly when the distance has no leading zero |
| Day1Part1.MessageQuotesLine | src/day1/part1.ts:82-85 | the error message is the fixed prefix, the offending line and the fixed suffix, so different lines give different messages |
| Day1Part1.MessageExamples | src/day1/part1.spec.ts:23-62 | the messages for S48 and L5.12 quote those lines between the fixed prefix and suffix |
| Day1Part1.DecodeStepExamples | src/day1/part1.ts:53-62 | R48 and L007 decode; S48, L5.12, L0, L and the empty line do not |
| Day1Part1.TruncRem | src/day1/part1.ts:117 | the truncating remainder lies strictly between -100 and 100, has the sign of the dividend when non-zero, and differs from the dividend by a multiple of 100 |
| Day1Part1.WrapTruncRem | src/day1/part1.ts:114-124 | adding 100 to a negative truncating remainder gives the mathematical residue in 0..99, and the raw remainder is 0 exactly when the residue is |
| Day1Part1.LoopIteration | src/day1/part1.ts:94-129 | an empty input fails with the empty-input error; an undecodable head fails with that line's error; otherwise the rest of the input remains, the dial becomes the residue of dial plus signed distance, and the password grows by one exactly when that residue is 0 |
| Day1Part1.IterateFirstStep | src/day1/part1.ts:94-129 | running a non-empty input whose head decodes is turning by that step and running the rest |
| Day1Part1.IterateSucceedsIff | src/day1/part1.ts:131-142 | the fold succeeds exactly when every remaining line decodes, and it never fails with the empty-input error, only with an invalid-step error |
| Day1Part1.IterateStopsAtFirstInvalid | src/day1/part1.ts:131-142 | when the first k lines decode and line k does not, the fold fails with line k's error |
| Day1Part1.IterateInvariants | src/day1/part1.ts:120-141 | on success the dial stays in 0..99 and the password grows by at most the number of lines |
| Day1Part1.IterateAppend | src/day1/part1.ts:135-141 | folding over two concatenated inputs is folding over the first and then continuing from its state over the second |
| Day1Part1.IterateIsRotation | src/day1/part1.ts:114-141 | when all lines decode, the final dial is the start plus the net signed distance, modulo 100, and the password grows by the number of running sums that are multiples of 100 |
| Day1Part1.Program | src/day1/part1.ts:131-144 | the imperative loop, from dial 50 and password 0, returns exactly what the fold specifies: the load error, the first step error, or the password |
| Day1Part1.SolveSucceedsIff | src/day1/part1.ts:131-144 | the program succeeds exactly when the content is not empty and every line loaded from it decodes |
| Day1Part1.SolveOutcome | src/day1/part1.ts:131-144 | the program fails only with the empty-file error on empty content or, on non-empty content, with an invalid-step error; a password lies between 0 and the number of lines loaded |
| Day1Examples.NominalRun | src/day1/part1.spec.ts:7-21 | the ten rotations of the nominal test give password 3 |
| Day1Examples.BadDirectionRun | src/day1/part1.spec.ts:23-41 | an input whose third line is S48 fails with the invalid-step error for S48 |
| Day1Examples.BadDistanceRun | src/day1/part1.spec.ts:43-62 | an input whose fourth line is L5.12 fails with the invalid-step error for L5.12 |

## Left out

- Reading the input file is left out: the base directory, the `<base>/src/day<N>/input<part>.txt` path (with the part left empty when none is given), the file system and its errors. `InputLines` takes the file's content as a parameter. The day and part numbers only choose that path.
- The `index.ts` entry points and the Effect runtime are left out. Effects become `Result` values, and `Effect.iterate` becomes recursion plus a `while` loop.
- The brands' error messages and the Schema parse-issue trees are left out. Only the final message of a failed rotation is modelled.
- JavaScript numbers are modelled as real numbers. Brand checks are therefore exact, and NaN, infinities and negative zero are not represented. `-0 === 0` is true, so the loop's `newDial === 0` test gives the same answer in the model.
- Day1Part1.DecodeDistance only accepts plain decimal digit strings. The source's `NumberFromString` also accepts forms such as "+5", "5.0", "0x10", "1e2" and surrounding whitespace. Such a line is valid in the source but rejected by the model.
- Day1Part1.LoopIteration adds the dial and the signed distance exactly. In the source that sum is a double. A right turn whose distance is within 99 of 2^53 - 1 can take it above 2^53, where it is rounded before `%` is applied. The model does not capture that rounding.
- The empty-file failure is modelled as a value. The source fails with the `InputFileEmptyError` class itself rather than an instance.
- Utils.InputLinesDropsTerminator, Day1Examples.NominalRun, Day1Examples.BadDirectionRun and Day1Examples.BadDistanceRun write each test's file content as its lines joined with newlines plus a final newline, not as one long string literal.
- A file holding just a newline loads as a single empty line, as the source's split-and-drop does. It then fails as an invalid dial step rather than as an empty file.
- The password counts only rotations that end exactly on 0, as the source's `newDial === 0` does. It does not count passes through 0 in the middle of a rotation.
