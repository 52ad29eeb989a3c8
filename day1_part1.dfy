/**
 * Day 1, part 1: the dial puzzle of src/day1/part1.ts.
 *
 * Every input line is one step, a direction `L` or `R` followed by a distance. The
 * dial has 100 positions and starts at 50; each step turns it, and the password
 * counts the steps after which the dial points at 0.
 */
module Day1Part1 {
  import opened Wrappers
  import Utils
  import opened Decimal

  /** The number of positions on the dial. */
  const StepsCount: int := 100

  // ---------------------------------------------------------------------------
  // Steps
  // ---------------------------------------------------------------------------

  datatype Direction = L | R

  /** `Number.MAX_SAFE_INTEGER`, 2^53 - 1: the largest integer `Schema.Int` accepts. */
  const MaxSafeInteger: int := 0x1F_FFFF_FFFF_FFFF

  /** `Schema.Int`, which is `Number.isSafeInteger`: an integer no larger than 2^53 - 1 in magnitude. */
  predicate SafeInteger(n: int)
  {
    -MaxSafeInteger <= n <= MaxSafeInteger
  }

  /** `DistanceSchema`: a safe integer that is positive. */
  type Distance = n: nat | 0 < n <= MaxSafeInteger witness 1

  datatype DialStep = DialStep(direction: Direction, distance: Distance)

  /** The one error a line can cause, carrying the line as it was read. */
  datatype StepError = InvalidDialStep(line: string)

  /** `DIRECTION_TO_COEF`: turning left counts down, turning right counts up. */
  function Coef(d: Direction): (c: int)
    ensures c == -1 <==> d == L
    ensures c == 1 <==> d == R
  {
    match d
    case L => -1
    case R => 1
  }

  function DirectionString(d: Direction): (s: string)
    ensures |s| == 1
  {
    match d
    case L => "L"
    case R => "R"
  }

  const MessagePrefix: string := "Invalid dial step provided: "
  const MessageSuffix: string := ". Expected L<number> or R<number>, examples: L60, R48."

  /** The message a rejected line is reported with; it quotes the line verbatim. */
  function Message(e: StepError): string
  {
    MessagePrefix + e.line + MessageSuffix
  }

  /** The message quotes the whole line, so two different lines never share a message. */
  lemma MessageQuotesLine(e: StepError, f: StepError)
    ensures Message(e)[|MessagePrefix|..|Message(e)| - |MessageSuffix|] == e.line
    ensures Message(e) == Message(f) ==> e == f
  {
    var m := Message(e);
    assert m[|MessagePrefix|..|m| - |MessageSuffix|] == e.line;
    var n := Message(f);
    assert n[|MessagePrefix|..|n| - |MessageSuffix|] == f.line;
  }

  /**
   * The first stage of `DialStep`: `substring(0, 1)` and `substring(1)`, the first
   * character (none for an empty line) and all the others.
   */
  function SplitLine(line: string): (parts: (string, string))
    ensures parts.0 + parts.1 == line
    ensures |parts.0| == if line == [] then 0 else 1
  {
    if line == [] then ("", "") else (line[..1], line[1..])
  }

  /** `DirectionSchema`: exactly the strings "L" and "R" are directions. */
  function DecodeDirection(s: string): (r: Option<Direction>)
    ensures r.Some? <==> s == "L" || s == "R"
    ensures r.Some? ==> DirectionString(r.value) == s
  {
    if s == "L" then Some(L) else if s == "R" then Some(R) else None
  }

  /**
   * `NumberFromString` composed with `DistanceSchema`: the text must be a number that
   * is a safe integer and positive. Only strings of decimal digits are read as numbers
   * here. Their value is exact: a digit string above 2^53 - 1 becomes, under `Number`,
   * a double of at least 2^53, which is not a safe integer either, so comparing the
   * exact value with the bound gives the source's answer.
   */
  function DecodeDistance(s: string): Option<Distance>
  {
    if s != [] && IsDigits(s) then
      var n := ParseNat(s);
      if SafeInteger(n) && n > 0 then Some(n) else None
    else None
  }

  /**
   * A distance is accepted exactly when it is made of digits, at least one of them not
   * 0, and its value is at most 2^53 - 1; its value is then the digits' value, written
   * back the same way unless the text had leading zeros.
   */
  lemma DecodeDistanceExactly(s: string)
    ensures DecodeDistance(s).Some? <==>
      && IsDigits(s)
      && (exists i :: 0 <= i < |s| && s[i] != '0')
      && ParseNat(s) <= MaxSafeInteger
    ensures DecodeDistance(s).Some? ==> DecodeDistance(s).value == ParseNat(s)
    ensures DecodeDistance(s).Some? && s[0] != '0' ==> NatToString(DecodeDistance(s).value) == s
  {
    if s != [] && IsDigits(s) {
      ParseNatPositive(s);
      if s[0] != '0' {
        NatToStringOfParse(s);
      }
    }
  }

  /**
   * `DialStep` decoding: the line splits into a direction and a distance, and both
   * must be valid or the whole line is rejected with an error naming it.
   */
  function DecodeStep(line: string): (r: Result<DialStep, StepError>)
    ensures r.Failure? ==> r.error == InvalidDialStep(line)
  {
    var (direction, distance) := SplitLine(line);
    match (DecodeDirection(direction), DecodeDistance(distance))
    case (Some(d), Some(n)) => Success(DialStep(d, n))
    case _ => Failure(InvalidDialStep(line))
  }

  /**
   * A line is a step exactly when it is `L` or `R` followed by an accepted distance;
   * the step then holds that letter and the value of the digits after it.
   */
  lemma DecodeStepExactly(line: string)
    ensures DecodeStep(line).Success? <==>
      |line| > 0 && (line[0] == 'L' || line[0] == 'R') && DecodeDistance(line[1..]).Some?
    ensures DecodeStep(line).Success? ==>
      && DirectionString(DecodeStep(line).value.direction) + line[1..] == line
      && DecodeStep(line).value.distance == ParseNat(line[1..])
  {
    if line != [] {
      assert line == line[..1] + line[1..];
      DecodeDistanceExactly(line[1..]);
    }
  }

  /** `DialStep` encoding: the direction letter followed by the distance in decimal. */
  function EncodeStep(step: DialStep): string
  {
    DirectionString(step.direction) + NatToString(step.distance)
  }

  /** Every step survives encoding and decoding. */
  lemma EncodeDecodeStep(step: DialStep)
    ensures DecodeStep(EncodeStep(step)) == Success(step)
  {
    var line := EncodeStep(step);
    var digits := NatToString(step.distance);
    assert line[1..] == digits;
    ParseNatToString(step.distance);
    assert digits[0] != '0';
    DecodeDistanceExactly(digits);
  }

  /** A line whose distance is written correctly but exceeds 2^53 - 1 is rejected. */
  lemma DecodeStepRejectsUnsafe(d: Direction, n: nat)
    requires n > MaxSafeInteger
    ensures DecodeStep(DirectionString(d) + NatToString(n)) ==
      Failure(InvalidDialStep(DirectionString(d) + NatToString(n)))
  {
    var line := DirectionString(d) + NatToString(n);
    assert line[1..] == NatToString(n);
    ParseNatToString(n);
    DecodeDistanceExactly(line[1..]);
    DecodeStepExactly(line);
  }

  /**
   * A decoded line encodes back to itself exactly when its distance has no leading
   * zero: "L007" decodes to a left turn of 7, which encodes as "L7".
   */
  lemma DecodeEncodeStep(line: string)
    requires DecodeStep(line).Success?
    ensures EncodeStep(DecodeStep(line).value) == line <==> line[1] != '0'
  {
    var step := DecodeStep(line).value;
    var digits := line[1..];
    DecodeStepExactly(line);
    DecodeDistanceExactly(digits);
    ParseNatPositive(digits);
    if line[1] != '0' {
      NatToStringOfParse(digits);
    } else {
      var out := NatToString(step.distance);
      assert EncodeStep(step)[1] == out[0];
    }
  }

  lemma DecodeStepExamples()
    ensures DecodeStep("R48") == Success(DialStep(R, 48))
    ensures DecodeStep("L007") == Success(DialStep(L, 7))
    ensures DecodeStep("S48") == Failure(InvalidDialStep("S48"))
    ensures DecodeStep("L5.12") == Failure(InvalidDialStep("L5.12"))
    ensures DecodeStep("L0") == Failure(InvalidDialStep("L0"))
    ensures DecodeStep("L") == Failure(InvalidDialStep("L"))
    ensures DecodeStep("") == Failure(InvalidDialStep(""))
  {
    assert "R48"[1..] == "48";
    assert "L007"[1..] == "007";
    assert "007"[..2] == "00" && "00"[..1] == "0" && "0"[..0] == "";
    assert ParseNat("007") == 7;
    assert "L5.12"[1..] == "5.12" && !IsDigit("5.12"[1]);
    assert "L0"[1..] == "0";
  }

  /** The messages of the two rejected lines in the puzzle's tests. */
  lemma MessageExamples()
    ensures Message(InvalidDialStep("S48")) ==
      "Invalid dial step provided: " + "S48" + ". Expected L<number> or R<number>, examples: L60, R48."
    ensures Message(InvalidDialStep("L5.12")) ==
      "Invalid dial step provided: " + "L5.12" + ". Expected L<number> or R<number>, examples: L60, R48."
  {
  }

  // ---------------------------------------------------------------------------
  // Turning the dial
  // ---------------------------------------------------------------------------

  /**
   * `a % STEPS_COUNT` as JavaScript computes it: the remainder of a division truncated
   * toward zero. It is smaller than a full turn in magnitude, carries the sign of the
   * dividend, and differs from the dividend by a whole number of turns.
   */
  function TruncRem(a: int): (r: int)
    ensures -StepsCount < r < StepsCount
    ensures r != 0 ==> (r < 0 <==> a < 0)
    ensures (a - r) % StepsCount == 0
  {
    if a >= 0 then a % StepsCount else -((-a) % StepsCount)
  }

  /** `newDial < 0 ? STEPS_COUNT + newDial : newDial`: move a negative remainder up by one turn. */
  function Wrap(raw: int): int
  {
    if raw < 0 then StepsCount + raw else raw
  }

  /**
   * The truncating remainder followed by `Wrap` is the Euclidean remainder, and the
   * raw remainder is 0 exactly when the wrapped one is.
   */
  lemma WrapTruncRem(a: int)
    ensures Wrap(TruncRem(a)) == a % StepsCount
    ensures 0 <= Wrap(TruncRem(a)) < StepsCount
    ensures TruncRem(a) == 0 <==> a % StepsCount == 0
  {
    var raw := TruncRem(a);
    var w := Wrap(raw);
    assert (a - w) % StepsCount == 0 by {
      if raw < 0 {
        assert a - w == (a - raw) - StepsCount;
      }
    }
    EuclidUnique(a, w);
  }

  /** The Euclidean remainder is the one value in [0, m) that differs from `a` by a multiple of m. */
  lemma EuclidUnique(a: int, w: int)
    requires 0 <= w < StepsCount
    requires (a - w) % StepsCount == 0
    ensures a % StepsCount == w
  {
    var q := (a - w) / StepsCount;
    assert a - w == StepsCount * q;
    assert a == StepsCount * q + w;
  }

  datatype LoopState = LoopState(dial: int, password: int)

  /** The state of `program`'s loop: the running state and the lines not yet read. */
  datatype Loop = Loop(state: LoopState, input: seq<string>)

  /** Why an iteration can fail: no line left, or a line that is not a step. */
  datatype LoopError = InputIsEmpty | InvalidStep(error: StepError)

  /**
   * `loopIteration`: take the first line, decode it, turn the dial, and count a
   * landing on 0. The new dial is always a position on the dial, the Euclidean
   * remainder of the turned value; the password goes up by one exactly when the new
   * dial is 0; exactly the first line is consumed.
   */
  function LoopIteration(loop: Loop): (r: Result<Loop, LoopError>)
    ensures loop.input == [] ==> r == Failure(InputIsEmpty)
    ensures loop.input != [] && DecodeStep(loop.input[0]).Failure? ==>
      r == Failure(InvalidStep(InvalidDialStep(loop.input[0])))
    ensures r.Success? <==> loop.input != [] && DecodeStep(loop.input[0]).Success?
    ensures r.Success? ==>
      var step := DecodeStep(loop.input[0]).value;
      && r.value.input == loop.input[1..]
      && r.value.state.dial == (loop.state.dial + Coef(step.direction) * step.distance) % StepsCount
      && 0 <= r.value.state.dial < StepsCount
      && r.value.state.password == loop.state.password + (if r.value.state.dial == 0 then 1 else 0)
  {
    if loop.input == [] then Failure(InputIsEmpty)
    else
      var line := loop.input[0];
      match DecodeStep(line)
      case Failure(e) => Failure(InvalidStep(e))
      case Success(step) =>
        var target := loop.state.dial + Coef(step.direction) * step.distance;
        var newDial := TruncRem(target);
        WrapTruncRem(target);
        var password := if newDial == 0 then loop.state.password + 1 else loop.state.password;
        Success(Loop(LoopState(Wrap(newDial), password), loop.input[1..]))
  }

  /** `Effect.iterate` over `loopIteration`: run iterations while lines remain. */
  function Iterate(loop: Loop): Result<LoopState, LoopError>
    decreases |loop.input|
  {
    if loop.input == [] then Success(loop.state)
    else
      match LoopIteration(loop)
      case Failure(e) => Failure(e)
      case Success(next) => Iterate(next)
  }

  /**
   * `Iterate` succeeds exactly when every remaining line is a valid step; the loop stops
   * before the input runs out, so it never fails with `InputIsEmpty`.
   */
  lemma {:induction false} IterateSucceedsIff(loop: Loop)
    ensures Iterate(loop).Success? <==>
      forall i :: 0 <= i < |loop.input| ==> DecodeStep(loop.input[i]).Success?
    ensures Iterate(loop).Failure? ==> Iterate(loop).error.InvalidStep?
    decreases |loop.input|
  {
    if loop.input != [] {
      var r := LoopIteration(loop);
      if r.Success? {
        IterateSucceedsIff(r.value);
        assert forall i :: 1 <= i < |loop.input| ==> loop.input[i] == r.value.input[i - 1];
      }
    }
  }

  /**
   * The first invalid line aborts the whole run: the result is that line's error and
   * no partial state.
   */
  lemma {:induction false} IterateStopsAtFirstInvalid(loop: Loop, k: nat)
    requires k < |loop.input| && DecodeStep(loop.input[k]).Failure?
    requires forall j :: 0 <= j < k ==> DecodeStep(loop.input[j]).Success?
    ensures Iterate(loop) == Failure(InvalidStep(InvalidDialStep(loop.input[k])))
    decreases k
  {
    if k > 0 {
      var next := LoopIteration(loop).value;
      assert forall j :: 0 <= j < k - 1 ==> next.input[j] == loop.input[j + 1];
      IterateStopsAtFirstInvalid(next, k - 1);
    }
  }

  /**
   * What a successful run keeps: the dial ends on a position of the dial (once a line
   * has been read, or if it started on one), and the password never decreases and
   * grows by at most one per line.
   */
  lemma {:induction false} IterateInvariants(loop: Loop)
    requires Iterate(loop).Success?
    ensures loop.input != [] || 0 <= loop.state.dial < StepsCount ==>
      0 <= Iterate(loop).value.dial < StepsCount
    ensures loop.state.password <= Iterate(loop).value.password <= loop.state.password + |loop.input|
    decreases |loop.input|
  {
    if loop.input != [] {
      IterateInvariants(LoopIteration(loop).value);
    }
  }

  /** Running over two blocks of lines is running over the first, then over the second. */
  lemma {:induction false} IterateAppend(state: LoopState, a: seq<string>, b: seq<string>)
    ensures Iterate(Loop(state, a + b)) ==
      match Iterate(Loop(state, a))
      case Failure(e) => Failure(e)
      case Success(middle) => Iterate(Loop(middle, b))
    decreases |a|
  {
    if a == [] {
      assert a + b == b;
    } else {
      var whole := Loop(state, a + b);
      assert whole.input[0] == a[0];
      var r := LoopIteration(whole);
      if r.Success? {
        var next := LoopIteration(Loop(state, a)).value;
        assert r.value == Loop(next.state, next.input + b) by {
          assert (a + b)[1..] == a[1..] + b;
        }
        IterateAppend(next.state, next.input, b);
      }
    }
  }

  // ---------------------------------------------------------------------------
  // The run as a whole, stated without the loop
  // ---------------------------------------------------------------------------

  /** The net rotation of a sequence of steps: right turns count up, left turns down. */
  function Net(steps: seq<DialStep>): int
  {
    if steps == [] then 0 else Coef(steps[0].direction) * steps[0].distance + Net(steps[1..])
  }

  /**
   * How many of the partial rotations, starting from `dial` and never reduced to a
   * dial position, end on a multiple of a full turn.
   */
  function ZeroLandings(dial: int, steps: seq<DialStep>): nat
    decreases |steps|
  {
    if steps == [] then 0
    else
      var turned := dial + Coef(steps[0].direction) * steps[0].distance;
      (if turned % StepsCount == 0 then 1 else 0) + ZeroLandings(turned, steps[1..])
  }

  /** Adding the same amount to two values on the same dial position keeps them together. */
  lemma SamePosition(d: int, e: int, x: int)
    requires d % StepsCount == e % StepsCount
    ensures (d + x) % StepsCount == (e + x) % StepsCount
  {
    var w := (e + x) % StepsCount;
    assert (e + x - w) % StepsCount == 0;
    assert d - e == StepsCount * (d / StepsCount - e / StepsCount);
    assert (d + x - w) == (e + x - w) + StepsCount * (d / StepsCount - e / StepsCount);
    EuclidUnique(d + x, w);
  }

  lemma {:induction false} ZeroLandingsOnSamePosition(d: int, e: int, steps: seq<DialStep>)
    requires d % StepsCount == e % StepsCount
    ensures ZeroLandings(d, steps) == ZeroLandings(e, steps)
    decreases |steps|
  {
    if steps != [] {
      var x := Coef(steps[0].direction) * steps[0].distance;
      SamePosition(d, e, x);
      ZeroLandingsOnSamePosition(d + x, e + x, steps[1..]);
    }
  }

  /** The dial position and password after one valid step. */
  function Turn(state: LoopState, step: DialStep): LoopState
  {
    var dial := (state.dial + Coef(step.direction) * step.distance) % StepsCount;
    LoopState(dial, state.password + if dial == 0 then 1 else 0)
  }

  /** One pass over a valid first line is `Turn`, and the run goes on with the other lines. */
  lemma IterateFirstStep(loop: Loop, step: DialStep)
    requires loop.input != [] && DecodeStep(loop.input[0]) == Success(step)
    ensures Iterate(loop) == Iterate(Loop(Turn(loop.state, step), loop.input[1..]))
  {
    var next := LoopIteration(loop).value;
    assert next == Loop(Turn(loop.state, step), loop.input[1..]);
  }

  /** Reducing the dial after one step changes neither the final position nor the zero landings. */
  lemma ReduceAfterStep(d: int, x: int, rest: seq<DialStep>)
    ensures (if rest == [] then (d + x) % StepsCount else ((d + x) % StepsCount + Net(rest)) % StepsCount)
            == (d + x + Net(rest)) % StepsCount
    ensures ZeroLandings((d + x) % StepsCount, rest) == ZeroLandings(d + x, rest)
  {
    assert (d + x) % StepsCount % StepsCount == (d + x) % StepsCount;
    ZeroLandingsOnSamePosition((d + x) % StepsCount, d + x, rest);
    if rest != [] {
      SamePosition((d + x) % StepsCount, d + x, Net(rest));
    }
  }

  /**
   * When every line decodes, the run ends with the dial at the starting dial plus the
   * net rotation, reduced to a dial position, and the password increased by the
   * number of steps after which the unreduced rotation sits on a multiple of 100.
   */
  lemma {:induction false} IterateIsRotation(loop: Loop, steps: seq<DialStep>)
    requires |steps| == |loop.input|
    requires forall i :: 0 <= i < |steps| ==> DecodeStep(loop.input[i]) == Success(steps[i])
    ensures Iterate(loop) == Success(LoopState(
      if steps == [] then loop.state.dial else (loop.state.dial + Net(steps)) % StepsCount,
      loop.state.password + ZeroLandings(loop.state.dial, steps)))
    decreases |steps|
  {
    if steps != [] {
      var d := loop.state.dial;
      var x := Coef(steps[0].direction) * steps[0].distance;
      var rest := steps[1..];
      var next := Loop(Turn(loop.state, steps[0]), loop.input[1..]);
      IterateFirstStep(loop, steps[0]);
      assert forall i :: 0 <= i < |rest| ==> next.input[i] == loop.input[i + 1];
      IterateIsRotation(next, rest);
      ReduceAfterStep(d, x, rest);
      assert Net(steps) == x + Net(rest);
      assert ZeroLandings(d, steps) == (if (d + x) % StepsCount == 0 then 1 else 0) + ZeroLandings(d + x, rest);
    }
  }

  // ---------------------------------------------------------------------------
  // The program
  // ---------------------------------------------------------------------------

  /** The dial starts at 50 and the password at 0. */
  const InitialState: LoopState := LoopState(50, 0)

  datatype ProgramError = LoadFailed(reason: Utils.LoadError) | IterationFailed(cause: LoopError)

  /** `program` from the file content on: load the lines, run the loop, answer the password. */
  function Solve(content: string): Result<int, ProgramError>
  {
    match Utils.InputLines(content)
    case Failure(e) => Failure(LoadFailed(e))
    case Success(lines) =>
      match Iterate(Loop(InitialState, lines))
      case Failure(e) => Failure(IterationFailed(e))
      case Success(state) => Success(state.password)
  }

  /**
   * `program`, with `Effect.iterate`'s loop written out: the state and the remaining
   * lines are rebound on each pass while lines remain, and the first failure is returned.
   */
  method Program(content: string) returns (r: Result<int, ProgramError>)
    ensures r == Solve(content)
  {
    var loaded := Utils.InputLines(content);
    if loaded.Failure? {
      return Failure(LoadFailed(loaded.error));
    }
    var loop := Loop(InitialState, loaded.value);
    while |loop.input| > 0
      invariant Iterate(loop) == Iterate(Loop(InitialState, loaded.value))
      decreases |loop.input|
    {
      var next := LoopIteration(loop);
      if next.Failure? {
        return Failure(IterationFailed(next.error));
      }
      loop := next.value;
    }
    return Success(loop.state.password);
  }

  /**
   * A run succeeds exactly when the file is not empty and every line it loads is a
   * valid step.
   */
  lemma SolveSucceedsIff(content: string)
    ensures Solve(content).Success? <==>
      && content != ""
      && forall i :: 0 <= i < |Utils.InputLines(content).value| ==>
           DecodeStep(Utils.InputLines(content).value[i]).Success?
  {
    if content != "" {
      IterateSucceedsIff(Loop(InitialState, Utils.InputLines(content).value));
    }
  }

  /**
   * A run fails only on an empty file or an invalid line, and a successful run answers
   * a password between 0 and the number of lines loaded.
   */
  lemma SolveOutcome(content: string)
    ensures Solve(content).Failure? ==>
      || (content == "" && Solve(content).error == LoadFailed(Utils.InputFileEmpty))
      || (content != "" && Solve(content).error.IterationFailed? && Solve(content).error.cause.InvalidStep?)
    ensures Solve(content).Success? ==>
      0 <= Solve(content).value <= |Utils.InputLines(content).value|
  {
    if content != "" {
      var loop := Loop(InitialState, Utils.InputLines(content).value);
      IterateSucceedsIff(loop);
      if Iterate(loop).Success? {
        IterateInvariants(loop);
      }
    }
  }
}
