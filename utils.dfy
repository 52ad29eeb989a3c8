/**
 * The refinement predicates and the line loader of src/utils.ts.
 *
 * JavaScript numbers are modelled as `real`, so that a value such as 5.12 can be
 * given to the predicates and rejected by them. The loader is modelled from the
 * moment the file's content is available: reading the file is not modelled.
 */
module Utils {
  import opened Wrappers

  // ---------------------------------------------------------------------------
  // Brand predicates
  // ---------------------------------------------------------------------------

  /** `Number.isInteger`: the number has no fractional part. */
  predicate Int(n: real)
  {
    n.Floor as real == n
  }

  predicate Positive(n: real)
  {
    n > 0.0
  }

  /** Both brands at once: an integer that is strictly positive, i.e. an integer at least 1. */
  function PositiveInt(n: real): (r: bool)
    ensures r <==> Int(n) && n >= 1.0
  {
    Int(n) && Positive(n)
  }

  /** A day of the puzzle calendar: exactly the integers 1 through 12. */
  function DayNumber(n: real): (r: bool)
    ensures r <==> n in {1.0, 2.0, 3.0, 4.0, 5.0, 6.0, 7.0, 8.0, 9.0, 10.0, 11.0, 12.0}
  {
    Int(n) && n >= 1.0 && n <= 12.0
  }

  /** A part of a day's puzzle: exactly the integers 1 and 2. */
  function DayPart(n: real): (r: bool)
    ensures r <==> n in {1.0, 2.0}
  {
    Int(n) && (n == 1.0 || n == 2.0)
  }

  /** `Int` accepts every integer. */
  lemma IntAcceptsIntegers(k: int)
    ensures Int(k as real)
  {
  }

  /** `Int` rejects every number strictly between two consecutive integers. */
  lemma IntRejectsFractions(k: int, x: real)
    requires k as real < x < (k + 1) as real
    ensures !Int(x)
  {
    assert x.Floor == k;
  }

  // ---------------------------------------------------------------------------
  // Splitting text into lines
  // ---------------------------------------------------------------------------

  /** The number of newline characters in `s`. */
  function NewlineCount(s: string): nat
  {
    multiset(s)['\n']
  }

  /**
   * `String.split(content, "\n")`: the pieces of `content` between newlines, in order.
   * There is always one more piece than there are newlines, so never zero pieces;
   * `SplitNewlineFree` shows that no piece holds a newline.
   */
  function Split(s: string): (pieces: seq<string>)
    ensures |pieces| == NewlineCount(s) + 1
    decreases |s|
  {
    if s == [] then [""]
    else
      var rest := Split(s[1..]);
      assert s == [s[0]] + s[1..];
      if s[0] == '\n' then [""] + rest
      else [[s[0]] + rest[0]] + rest[1..]
  }

  /** No piece of a split holds a newline. */
  lemma {:induction false} SplitNewlineFree(s: string)
    ensures forall i :: 0 <= i < |Split(s)| ==> '\n' !in Split(s)[i]
    decreases |s|
  {
    if s != [] {
      SplitNewlineFree(s[1..]);
      var rest := Split(s[1..]);
      var pieces := Split(s);
      forall i | 0 <= i < |pieces| ensures '\n' !in pieces[i] {
        if s[0] == '\n' {
          assert pieces == [""] + rest;
          if i > 0 { assert pieces[i] == rest[i - 1]; }
        } else {
          assert pieces == [[s[0]] + rest[0]] + rest[1..];
          if i > 0 { assert pieces[i] == rest[i]; }
        }
      }
    }
  }

  /** The inverse of `Split`: the pieces glued back together with a newline between each two. */
  function Join(pieces: seq<string>): string
    requires |pieces| > 0
  {
    if |pieces| == 1 then pieces[0] else pieces[0] + "\n" + Join(pieces[1..])
  }

  /** A leading empty piece puts a newline in front of the join. */
  lemma JoinAfterEmpty(pieces: seq<string>)
    requires |pieces| > 0
    ensures Join([""] + pieces) == "\n" + Join(pieces)
  {
    assert ([""] + pieces)[1..] == pieces;
  }

  /** Concatenation regrouped, for `Join`'s left-nested `+`. */
  lemma Regroup(x: string, y: string, z: string)
    ensures x + y + z == x + (y + z)
  {
  }

  /** A prefix glued to the front of the first piece comes first in the join. */
  lemma JoinAfterPrefix(x: string, first: string, rest: seq<string>)
    ensures Join([x + first] + rest) == x + Join([first] + rest)
  {
    if rest != [] {
      var tail := Join(rest);
      assert ([x + first] + rest)[1..] == rest;
      assert ([first] + rest)[1..] == rest;
      Regroup(x, first, "\n" + tail);
    }
  }

  /** One more leading character: `Join` still undoes `Split`. */
  lemma JoinOfSplitStep(c: char, u: string)
    requires Join(Split(u)) == u
    ensures Join(Split([c] + u)) == [c] + u
  {
    var rest := Split(u);
    if c == '\n' {
      assert [c] == "\n";
      SplitAfterNewline(u);
      JoinAfterEmpty(rest);
    } else {
      SplitAfterChar(c, u);
      assert rest == [rest[0]] + rest[1..];
      JoinAfterPrefix([c], rest[0], rest[1..]);
    }
  }

  lemma {:induction false} JoinOfSplit(s: string)
    ensures Join(Split(s)) == s
    decreases |s|
  {
    if s != [] {
      JoinOfSplit(s[1..]);
      JoinOfSplitStep(s[0], s[1..]);
      assert s == [s[0]] + s[1..];
    }
  }

  /** A leading newline starts the split with an empty piece. */
  lemma SplitAfterNewline(u: string)
    ensures Split("\n" + u) == [""] + Split(u)
  {
    assert ("\n" + u)[1..] == u;
  }

  /** A leading character other than a newline joins the first piece. */
  lemma SplitAfterChar(c: char, u: string)
    requires c != '\n'
    ensures Split([c] + u) == [[c] + Split(u)[0]] + Split(u)[1..]
  {
    assert ([c] + u)[0] == c;
    assert ([c] + u)[1..] == u;
  }

  /** Splitting a newline-free prefix, then the rest: the prefix is the first piece. */
  lemma {:induction false} SplitAfterPiece(p: string, t: string)
    requires '\n' !in p
    ensures Split(p + t) == [p + Split(t)[0]] + Split(t)[1..]
    decreases |p|
  {
    if p == [] {
      assert p + t == t;
      assert p + Split(t)[0] == Split(t)[0];
      assert Split(t) == [Split(t)[0]] + Split(t)[1..];
    } else {
      assert p[0] in p;
      assert '\n' !in p[1..] by {
        forall x | x in p[1..] ensures x in p { }
      }
      assert p == [p[0]] + p[1..];
      assert p + t == [p[0]] + (p[1..] + t);
      SplitAfterChar(p[0], p[1..] + t);
      SplitAfterPiece(p[1..], t);
      Regroup([p[0]], p[1..], Split(t)[0]);
    }
  }

  /** One more newline-free piece in front: `Split` still undoes `Join`. */
  lemma SplitOfJoinStep(first: string, t: string, rest: seq<string>)
    requires '\n' !in first
    requires Split(t) == rest
    ensures Split(first + ("\n" + t)) == [first] + rest
  {
    SplitAfterNewline(t);
    SplitAfterPiece(first, "\n" + t);
    assert first + "" == first;
  }

  /** A single newline-free piece splits into itself. */
  lemma SplitOfPiece(p: string)
    requires '\n' !in p
    ensures Split(p) == [p]
  {
    SplitAfterPiece(p, "");
    assert p + "" == p;
  }

  /** `Join` of two or more pieces, unfolded once. */
  lemma JoinUnfold(pieces: seq<string>)
    requires |pieces| > 1
    ensures Join(pieces) == pieces[0] + ("\n" + Join(pieces[1..]))
  {
  }

  lemma {:induction false} SplitOfJoin(pieces: seq<string>)
    requires |pieces| > 0
    requires forall i :: 0 <= i < |pieces| ==> '\n' !in pieces[i]
    ensures Split(Join(pieces)) == pieces
    decreases |pieces|
  {
    if |pieces| == 1 {
      SplitOfPiece(pieces[0]);
    } else {
      var rest := pieces[1..];
      assert forall i :: 0 <= i < |rest| ==> rest[i] == pieces[i + 1];
      SplitOfJoin(rest);
      SplitOfJoinStep(pieces[0], Join(rest), rest);
      JoinUnfold(pieces);
      assert [pieces[0]] + rest == pieces;
    }
  }

  lemma {:induction false} JoinSnoc(pieces: seq<string>, x: string)
    requires |pieces| > 0
    ensures Join(pieces + [x]) == Join(pieces) + "\n" + x
    decreases |pieces|
  {
    if |pieces| > 1 {
      JoinSnoc(pieces[1..], x);
      assert (pieces + [x])[1..] == pieces[1..] + [x];
    }
  }

  /** The last character of a join after a newline: the newline itself, or the last piece's. */
  lemma LastCharAfterNewline(front: string, last: string)
    ensures var s := front + "\n" + last;
      s[|s| - 1] == if last == "" then '\n' else last[|last| - 1]
  {
  }

  /** Newline-free pieces end with an empty piece exactly when their join is empty or ends with a newline. */
  lemma LastPieceOfJoin(pieces: seq<string>)
    requires |pieces| > 0
    requires forall i :: 0 <= i < |pieces| ==> '\n' !in pieces[i]
    ensures var s := Join(pieces); pieces[|pieces| - 1] == "" <==> s == "" || s[|s| - 1] == '\n'
  {
    var n := |pieces|;
    var last := pieces[n - 1];
    assert '\n' !in last;
    if n == 1 {
      if last != "" {
        assert last[|last| - 1] in last;
      }
    } else {
      var init := pieces[..n - 1];
      assert pieces == init + [last];
      JoinSnoc(init, last);
      LastCharAfterNewline(Join(init), last);
      if last != "" {
        assert last[|last| - 1] in last;
      }
    }
  }

  /** The last piece of a split is empty exactly when the text is empty or ends with a newline. */
  lemma LastPieceEmpty(s: string)
    ensures Split(s)[|Split(s)| - 1] == "" <==> s == "" || s[|s| - 1] == '\n'
  {
    JoinOfSplit(s);
    SplitNewlineFree(s);
    LastPieceOfJoin(Split(s));
  }

  /** Dropping a trailing empty line from at least two lines removes one final newline. */
  lemma JoinDropTrailingEmpty(lines: seq<string>)
    requires |lines| > 0
    ensures |lines| > 1 && lines[|lines| - 1] == "" ==> Join(lines) == Join(lines[..|lines| - 1]) + "\n"
  {
    if |lines| > 1 && lines[|lines| - 1] == "" {
      var init := lines[..|lines| - 1];
      assert lines == init + [""];
      JoinSnoc(init, "");
    }
  }

  // ---------------------------------------------------------------------------
  // The loader
  // ---------------------------------------------------------------------------

  datatype LoadError = InputFileEmpty

  /**
   * `lastNonEmpty`, `isEmpty` and `slice`: drop the last line if, and only if, it is
   * empty; nothing else is removed, so an earlier empty line is kept.
   */
  function DropTrailingEmpty(lines: seq<string>): (r: seq<string>)
    requires |lines| > 0
    ensures |r| == |lines| - 1 <==> lines[|lines| - 1] == ""
    ensures |r| == |lines| <==> lines[|lines| - 1] != ""
    ensures r == lines[..|r|]
  {
    if lines[|lines| - 1] == "" then lines[..|lines| - 1] else lines
  }

  /**
   * What is left once the trailing empty line is dropped: nothing exactly for the empty
   * text, newline-free lines, and the content back when joined with its final newline.
   */
  lemma KeptLines(content: string)
    ensures var kept := DropTrailingEmpty(Split(content));
      && (|kept| == 0 <==> content == "")
      && (forall i :: 0 <= i < |kept| ==> '\n' !in kept[i])
      && (content != "" ==>
            content == Join(kept) + (if content[|content| - 1] == '\n' then "\n" else ""))
  {
    var lines := Split(content);
    var kept := DropTrailingEmpty(lines);
    JoinOfSplit(content);
    SplitNewlineFree(content);
    LastPieceEmpty(content);
    if content == "" {
      assert lines == [""];
    } else if content[|content| - 1] == '\n' {
      assert |lines| > 1;
      JoinDropTrailingEmpty(lines);
    } else {
      assert kept == lines;
    }
    forall i | 0 <= i < |kept| ensures '\n' !in kept[i] {
      assert kept[i] == lines[i];
    }
  }

  /**
   * `inputLines` once the file content is read: split on newlines, drop one trailing
   * empty line, fail with `InputFileEmpty` when no line is left. Only the empty text
   * fails; on success the lines, joined back with newlines and followed by the final
   * newline when there was one, give the content back.
   */
  function InputLines(content: string): (r: Result<seq<string>, LoadError>)
    ensures r.Failure? <==> content == ""
    ensures r.Success? ==> |r.value| > 0
    ensures r.Success? ==> forall i :: 0 <= i < |r.value| ==> '\n' !in r.value[i]
    ensures r.Success? ==>
      content == Join(r.value) + (if content[|content| - 1] == '\n' then "\n" else "")
  {
    var kept := DropTrailingEmpty(Split(content));
    KeptLines(content);
    if |kept| == 0 then Failure(InputFileEmpty) else Success(kept)
  }

  /** A newline-terminated text of newline-free lines loads as exactly those lines. */
  lemma InputLinesOfTerminated(lines: seq<string>)
    requires |lines| > 0
    requires forall i :: 0 <= i < |lines| ==> '\n' !in lines[i]
    ensures InputLines(Join(lines) + "\n") == Success(lines)
  {
    var content := Join(lines) + "\n";
    var pieces := lines + [""];
    forall i | 0 <= i < |pieces| ensures '\n' !in pieces[i] {
      if i < |lines| { assert pieces[i] == lines[i]; }
    }
    SplitOfJoin(pieces);
    JoinSnoc(lines, "");
    assert Join(pieces) == content;
    assert pieces[..|pieces| - 1] == lines;
    assert DropTrailingEmpty(Split(content)) == lines;
  }

  /** The loader's unit test: one final newline is a terminator, not a blank line. */
  lemma InputLinesDropsTerminator()
    ensures InputLines("L44\nR35\nR4\n") == Success(["L44", "R35", "R4"])
  {
    var lines := ["L44", "R35", "R4"];
    assert Join(lines) + "\n" == "L44\nR35\nR4\n";
    InputLinesOfTerminated(lines);
  }

  /** The loader's unit test: an empty file fails. */
  lemma InputLinesEmptyFails()
    ensures InputLines("") == Failure(InputFileEmpty)
  {
  }

  /** Only one trailing empty line is dropped: a lone newline, or a second one, leaves a blank line. */
  lemma InputLinesKeepsOtherBlanks()
    ensures InputLines("\n") == Success([""])
    ensures InputLines("L44\n\n") == Success(["L44", ""])
  {
    assert Join([""]) + "\n" == "\n";
    InputLinesOfTerminated([""]);
    var two := ["L44", ""];
    assert Join(two) + "\n" == "L44\n\n";
    InputLinesOfTerminated(two);
  }

  /** Interior blank lines are kept. */
  lemma InputLinesKeepsInteriorBlank()
    ensures InputLines("L44\n\nR4") == Success(["L44", "", "R4"])
  {
    var three := ["L44", "", "R4"];
    assert three[1..] == ["", "R4"];
    assert three[1..][1..] == ["R4"];
    assert Join(three) == "L44\n\nR4";
    SplitOfJoin(three);
  }
}
