/** The time-window filter: keeps the observation facts whose last argument,
    an integer time point, lies between a start and an end, and drops every
    other line. */
module FilterFact {
  import opened Wrappers
  import opened Text
  import Seqs

  /** Python `int()` on a command-line argument: an optionally signed run of
      decimal digits, with white space around it allowed. */
  function ArgumentValue(arg: string): Option<int> {
    ParseInt(Strip(arg))
  }

  /** The fact part of a line: the text before any `%` comment, stripped. */
  function Content(line: string): (r: string)
    ensures '%' !in r
  {
    StripInside(Before(line, '%'));
    Strip(Before(line, '%'))
  }

  /** The time point `,\s*([+-]?\d+)\)\.\s*$` finds in stripped content: the
      text after the last comma before the closing `).`, without its leading
      white space, read as an integer. */
  function TrailingValue(content: string): Option<int> {
    if !EndsWith(content, ").") then None
    else
      var body := content[..|content| - 2];
      if ',' !in body then None else ParseInt(LStrip(LastPiece(body, ',')))
  }

  /** `content` ends with a comma, white space, the integer literal `number`
      and `).`, which is what the pattern matches in stripped text. */
  predicate TrailingMatch(content: string, front: string, space: string, number: string) {
    AllSpace(space) && content == front + [','] + (space + number) + ")."
  }

  /** An integer literal holds no comma and does not start with white space. */
  lemma NumberPlain(number: string)
    requires ParseInt(number).Some?
    ensures number != [] && !IsSpace(number[0]) && ',' !in number
  {
    assert forall i :: 0 <= i < |number| ==> number[i] != ',' by {
      if number[0] == '+' || number[0] == '-' {
        assert forall i :: 1 <= i < |number| ==> number[1..][i - 1] == number[i];
      }
    }
  }

  /** Some match of the pattern reads `v`. */
  ghost predicate EndsWithValue(content: string, v: int) {
    exists front, space, number :: TrailingMatch(content, front, space, number) && ParseInt(number) == Some(v)
  }

  /** The value found is exactly the one a match of the pattern reads. */
  lemma TrailingValueMeaning(content: string, v: int)
    ensures TrailingValue(content) == Some(v) <==> EndsWithValue(content, v)
  {
    if TrailingValue(content) == Some(v) {
      var body := content[..|content| - 2];
      var piece := LastPiece(body, ',');
      var front := LastPieceBefore(body, ',');
      var space := SplitSpace(piece);
      var number := LStrip(piece);
      assert content == body + ")." by {
        assert content[|content| - 2..] == ").";
      }
      assert TrailingMatch(content, front, space, number);
    }
    if exists front, space, number :: TrailingMatch(content, front, space, number) && ParseInt(number) == Some(v) {
      var front, space, number :| TrailingMatch(content, front, space, number) && ParseInt(number) == Some(v);
      var piece := space + number;
      var body := front + [','] + piece;
      assert content == body + ").";
      assert content[..|content| - 2] == body;
      assert EndsWith(content, ").") by {
        assert content[|content| - 2..] == ").";
      }
      NumberPlain(number);
      assert ',' !in space;
      assert ',' !in piece;
      LastPieceAfter(front, piece, ',');
      LStripSpace(space, number);
      assert body[|front|] == ',';
    }
  }

  /** Whether a line with fact part `content` is copied for the window
      `[start, end]`. */
  predicate KeepContent(content: string, start: int, end: int) {
    content != [] && StartsWith(content, "obs(")
    && match TrailingValue(content)
       case Some(v) => start <= v <= end
       case None => false
  }

  /** Whether `filter_facts` copies the line for the window `[start, end]`. */
  predicate Keep(line: string, start: int, end: int) {
    KeepContent(Content(line), start, end)
  }

  /** A line is kept exactly when its fact part is an observation ending in a
      comma, an integer and `).`, with the integer inside the window. */
  lemma KeepMeaning(content: string, start: int, end: int)
    ensures KeepContent(content, start, end) <==>
      StartsWith(content, "obs(") && exists v :: start <= v <= end && EndsWithValue(content, v)
  {
    match TrailingValue(content)
    case Some(v) =>
      TrailingValueMeaning(content, v);
      forall u | EndsWithValue(content, u) ensures u == v {
        TrailingValueMeaning(content, u);
      }
    case None =>
      forall u | EndsWithValue(content, u) ensures false {
        TrailingValueMeaning(content, u);
      }
  }

  /** The keep test for one window, as a value. */
  function KeepIn(start: int, end: int): string -> bool {
    line => Keep(line, start, end)
  }

  /** The error `filter_facts` reports when a bound is not an integer. */
  datatype FilterError = BoundsNotIntegers(start: string, end: string)

  /** `filter_facts` once the input file is read: the lines written to the
      output, in input order, or the error for bounds that are not
      integers, in which case nothing is written. */
  method FilterFacts(lines: seq<string>, start: string, end: string) returns (r: Result<seq<string>, FilterError>)
    ensures r.Failure? <==> ArgumentValue(start).None? || ArgumentValue(end).None?
    ensures r.Success? ==>
      r.value == Seqs.Filter(lines, KeepIn(ArgumentValue(start).value, ArgumentValue(end).value))
  {
    var startNum := ArgumentValue(start);
    var endNum := ArgumentValue(end);
    if startNum.None? || endNum.None? {
      return Failure(BoundsNotIntegers(start, end));
    }
    var written := FilterLines(lines, startNum.value, endNum.value);
    return Success(written);
  }

  /** The loop of `filter_facts` over the input lines, for integer bounds. */
  method FilterLines(lines: seq<string>, lo: int, hi: int) returns (written: seq<string>)
    ensures written == Seqs.Filter(lines, KeepIn(lo, hi))
  {
    written := [];
    for i := 0 to |lines|
      invariant written == Seqs.Filter(lines[..i], KeepIn(lo, hi))
    {
      Seqs.FilterPrefixStep(lines, i, KeepIn(lo, hi));
      var keep := KeepLine(lines[i], lo, hi);
      if keep {
        written := written + [lines[i]];
      }
    }
    assert lines[..|lines|] == lines;
  }

  /** The body of the loop over the input lines: whether the line is
      written, decided by the same early exits as the loop. */
  method KeepLine(line: string, lo: int, hi: int) returns (keep: bool)
    ensures keep == Keep(line, lo, hi)
  {
    var content := Content(line);
    if content == [] || !StartsWith(content, "obs(") {
      return false;
    }
    var found := TrailingValue(content);
    if found.None? {
      return false;
    }
    return lo <= found.value <= hi;
  }

  /** Lines are copied verbatim and in input order: the output is a
      subsequence of the input, and holds a line exactly when the line is
      in the input and passes the test. */
  lemma OutputSubsequence(lines: seq<string>, start: int, end: int, line: string)
    ensures Seqs.IsSubsequence(Seqs.Filter(lines, KeepIn(start, end)), lines)
    ensures line in Seqs.Filter(lines, KeepIn(start, end)) <==> line in lines && Keep(line, start, end)
  {
    Seqs.FilterSubsequence(lines, KeepIn(start, end));
    Seqs.FilterMembers(lines, KeepIn(start, end), line);
  }

  /** An empty window keeps nothing. */
  lemma {:induction false} EmptyWindow(lines: seq<string>, start: int, end: int)
    requires start > end
    ensures Seqs.Filter(lines, KeepIn(start, end)) == []
  {
    if lines != [] {
      EmptyWindow(lines[..|lines| - 1], start, end);
    }
  }
}
