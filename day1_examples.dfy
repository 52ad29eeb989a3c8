/**
 * The cases of src/day1/part1.spec.ts, run through the model. Each test's file content
 * is its lines, each followed by a newline: `Utils.Join(lines) + "\n"`.
 */
module Day1Examples {
  import opened Wrappers
  import Utils
  import opened Day1Part1

  // The lines of the nominal test, in two halves.
  const NominalFirst: seq<string> := ["L68", "L30", "R48", "L5", "R60"]
  const NominalSecond: seq<string> := ["L55", "L1", "L99", "R14", "L82"]

  const NominalFirstSteps: seq<DialStep> :=
    [DialStep(L, 68), DialStep(L, 30), DialStep(R, 48), DialStep(L, 5), DialStep(R, 60)]
  const NominalSecondSteps: seq<DialStep> :=
    [DialStep(L, 55), DialStep(L, 1), DialStep(L, 99), DialStep(R, 14), DialStep(L, 82)]

  /** Each line of the first half decodes to the step it spells. */
  lemma NominalFirstDecodes()
    ensures forall i :: 0 <= i < |NominalFirst| ==> DecodeStep(NominalFirst[i]) == Success(NominalFirstSteps[i])
  {
    EncodeDecodeStep(DialStep(L, 68));
    assert EncodeStep(DialStep(L, 68)) == "L68";
    EncodeDecodeStep(DialStep(L, 30));
    assert EncodeStep(DialStep(L, 30)) == "L30";
    EncodeDecodeStep(DialStep(R, 48));
    assert EncodeStep(DialStep(R, 48)) == "R48";
    EncodeDecodeStep(DialStep(L, 5));
    assert EncodeStep(DialStep(L, 5)) == "L5";
    EncodeDecodeStep(DialStep(R, 60));
    assert EncodeStep(DialStep(R, 60)) == "R60";
  }

  /** Each line of the second half decodes to the step it spells. */
  lemma NominalSecondDecodes()
    ensures forall i :: 0 <= i < |NominalSecond| ==> DecodeStep(NominalSecond[i]) == Success(NominalSecondSteps[i])
  {
    EncodeDecodeStep(DialStep(L, 55));
    assert EncodeStep(DialStep(L, 55)) == "L55";
    EncodeDecodeStep(DialStep(L, 1));
    assert EncodeStep(DialStep(L, 1)) == "L1";
    EncodeDecodeStep(DialStep(L, 99));
    assert EncodeStep(DialStep(L, 99)) == "L99";
    EncodeDecodeStep(DialStep(R, 14));
    assert EncodeStep(DialStep(R, 14)) == "R14";
    EncodeDecodeStep(DialStep(L, 82));
    assert EncodeStep(DialStep(L, 82)) == "L82";
  }

  /** The first half turns the dial from 50 through 82, 52, 0 and 95 to 55. */
  lemma NominalFirstTurns()
    ensures (50 + Net(NominalFirstSteps)) % StepsCount == 55
    ensures ZeroLandings(50, NominalFirstSteps) == 1
  {
  }

  /** The second half turns the dial from 55 through 0, 99, 0 and 14 to 32. */
  lemma NominalSecondTurns()
    ensures (55 + Net(NominalSecondSteps)) % StepsCount == 32
    ensures ZeroLandings(55, NominalSecondSteps) == 2
  {
  }

  lemma NominalFirstHalf()
    ensures Iterate(Loop(InitialState, NominalFirst)) == Success(LoopState(55, 1))
  {
    NominalFirstDecodes();
    IterateIsRotation(Loop(InitialState, NominalFirst), NominalFirstSteps);
    NominalFirstTurns();
  }

  lemma NominalSecondHalf()
    ensures Iterate(Loop(LoopState(55, 1), NominalSecond)) == Success(LoopState(32, 3))
  {
    NominalSecondDecodes();
    IterateIsRotation(Loop(LoopState(55, 1), NominalSecond), NominalSecondSteps);
    NominalSecondTurns();
  }

  /** The nominal test: the ten lines answer 3. */
  lemma NominalRun()
    ensures Solve(Utils.Join(NominalFirst + NominalSecond) + "\n") == Success(3)
  {
    Utils.InputLinesOfTerminated(NominalFirst + NominalSecond);
    NominalFirstHalf();
    NominalSecondHalf();
    IterateAppend(InitialState, NominalFirst, NominalSecond);
  }

  /** The two lines the failing tests stop at. */
  lemma BadLines()
    ensures DecodeStep("S48") == Failure(InvalidDialStep("S48"))
    ensures DecodeStep("L5.12") == Failure(InvalidDialStep("L5.12"))
  {
    assert "S48"[..1] == "S";
    assert "L5.12"[1..] == "5.12" && !Decimal.IsDigit("5.12"[1]);
  }

  const BadDirectionLines: seq<string> := ["L68", "L30", "S48"]

  lemma BadDirectionIterates()
    ensures Iterate(Loop(InitialState, BadDirectionLines)) == Failure(InvalidStep(InvalidDialStep("S48")))
  {
    NominalFirstDecodes();
    BadLines();
    forall j | 0 <= j < 2 ensures DecodeStep(BadDirectionLines[j]).Success? {
      assert BadDirectionLines[j] == NominalFirst[j];
    }
    IterateStopsAtFirstInvalid(Loop(InitialState, BadDirectionLines), 2);
  }

  /** The test with a wrong direction fails on its third line, "S48", discarding the first two. */
  lemma BadDirectionRun()
    ensures Solve(Utils.Join(BadDirectionLines) + "\n") ==
      Failure(IterationFailed(InvalidStep(InvalidDialStep("S48"))))
  {
    Utils.InputLinesOfTerminated(BadDirectionLines);
    BadDirectionIterates();
  }

  const BadDistanceLines: seq<string> := ["L68", "L30", "R48", "L5.12", "R60", "L55", "L1"]

  lemma BadDistanceIterates()
    ensures Iterate(Loop(InitialState, BadDistanceLines)) == Failure(InvalidStep(InvalidDialStep("L5.12")))
  {
    NominalFirstDecodes();
    BadLines();
    forall j | 0 <= j < 3 ensures DecodeStep(BadDistanceLines[j]).Success? {
      assert BadDistanceLines[j] == NominalFirst[j];
    }
    IterateStopsAtFirstInvalid(Loop(InitialState, BadDistanceLines), 3);
  }

  /** The test with a fractional distance fails on its fourth line, "L5.12". */
  lemma BadDistanceRun()
    ensures Solve(Utils.Join(BadDistanceLines) + "\n") ==
      Failure(IterationFailed(InvalidStep(InvalidDialStep("L5.12"))))
  {
    Utils.InputLinesOfTerminated(BadDistanceLines);
    BadDistanceIterates();
  }
}
