/** Reading a file of ASP rules as statements, and sorting the statements
    into the part that goes under `#program base.` and the rules that need a
    guard. `generate_simple_events.py` and `generate_meta_events.py` carry
    identical copies of these helpers; they are modelled once here. */
module AspStatements {
  import opened Wrappers
  import opened Text
  import Seqs

  /** A stripped line that is a `#program` or `#external` directive. */
  predicate IsDirective(t: string) {
    StartsWith(t, "#program") || StartsWith(t, "#external")
  }

  /** A line that is blank or a `%` comment once stripped. */
  predicate IsFiller(line: string) {
    Strip(line) == [] || StartsWith(Strip(line), "%")
  }

  /** A line that is a directive once stripped. */
  predicate DirectiveLine(line: string) {
    IsDirective(Strip(line))
  }

  /** A line that ends with `.` once stripped and is not a `%` comment. */
  predicate EndsStatement(line: string) {
    EndsWith(Strip(line), ".") && !StartsWith(Strip(line), "%")
  }

  /** A line that ends the statement being read: a directive never does,
      any other line does when it ends with `.` and is not a comment. */
  predicate Closes(line: string) {
    !DirectiveLine(line) && EndsStatement(line)
  }

  /** The text of each statement. */
  function Statements(contents: string): seq<string> {
    Seqs.Map(Seqs.Chunks(Lines(contents), Closes), Concat)
  }

  lemma {:induction false} ConcatFlatten(gs: seq<seq<string>>)
    ensures Concat(Seqs.Map(gs, Concat)) == Concat(Seqs.Flatten(gs))
  {
    if gs != [] {
      var init, last := gs[..|gs| - 1], gs[|gs| - 1];
      assert gs == init + [last];
      Seqs.MapSnoc(init, last, Concat);
      ConcatAppend(Seqs.Map(init, Concat), [Concat(last)]);
      assert Concat([Concat(last)]) == Concat(last) by {
        ConcatCons(Concat(last), []);
      }
      assert Seqs.Flatten(gs) == Seqs.Flatten(init) + last;
      ConcatFlatten(init);
      ConcatAppend(Seqs.Flatten(init), last);
    }
  }

  /** Splitting into statements loses nothing: the statements, put back
      together, are the file. */
  lemma StatementsRoundTrip(contents: string)
    ensures Concat(Statements(contents)) == contents
  {
    ConcatFlatten(Seqs.Chunks(Lines(contents), Closes));
    Seqs.ChunksFlatten(Lines(contents), Closes);
  }

  /** `split_statements`: one pass over the lines with a buffer of the lines
      of the statement being read. */
  method SplitStatements(contents: string) returns (statements: seq<string>)
    ensures statements == Statements(contents)
  {
    var lines := Lines(contents);
    statements := [];
    var buffer: seq<string> := [];
    ghost var done: seq<seq<string>> := [];
    for i := 0 to |lines|
      invariant Seqs.Chunks(lines[..i], Closes) == done + (if buffer == [] then [] else [buffer])
      invariant statements == Seqs.Map(done, Concat)
      invariant Seqs.LastClosed(done, Closes) && Seqs.StillOpen(buffer, Closes)
    {
      var line := lines[i];
      Seqs.ChunksPrefixStep(lines, i, Closes, done, buffer);
      buffer := buffer + [line];
      if DirectiveLine(line) {
        continue;
      }
      if EndsStatement(line) {
        Seqs.MapSnoc(done, buffer, Concat);
        statements := statements + [Concat(buffer)];
        done := done + [buffer];
        buffer := [];
      }
    }
    assert lines[..|lines|] == lines;
    if buffer != [] {
      Seqs.MapSnoc(done, buffer, Concat);
      statements := statements + [Concat(buffer)];
      done := done + [buffer];
    }
  }

  /** The position of the first line that is neither blank nor a comment,
      or the number of lines when there is none. */
  function FirstContentIndex(lines: seq<string>): (k: nat)
    ensures k <= |lines|
    ensures k < |lines| ==> !IsFiller(lines[k])
  {
    Seqs.FirstFailing(lines, IsFiller)
  }

  /** Every line before the first content line is blank or a comment. */
  lemma FillerBeforeContent(lines: seq<string>, j: nat)
    requires j < FirstContentIndex(lines)
    ensures IsFiller(lines[j])
  {
    Seqs.BeforeFirstFailing(lines, IsFiller, j);
  }

  /** Every list of lines splits into a run of filler lines followed by a
      content line or by the end. */
  lemma FirstContentSplit(lines: seq<string>) returns (k: nat)
    ensures k <= |lines| && (k < |lines| ==> !IsFiller(lines[k]))
    ensures forall j :: 0 <= j < k ==> IsFiller(lines[j])
  {
    k := FirstContentIndex(lines);
    forall j | 0 <= j < k
      ensures IsFiller(lines[j])
    {
      FillerBeforeContent(lines, j);
    }
  }


  /** The first content line is the one that follows a run of filler lines
      and is not filler itself (or the end when every line is filler). */
  lemma FirstContentIndexIs(lines: seq<string>, k: nat)
    requires k <= |lines|
    requires forall j :: 0 <= j < k ==> IsFiller(lines[j])
    requires k < |lines| ==> !IsFiller(lines[k])
    ensures FirstContentIndex(lines) == k
  {
    Seqs.FirstFailingIs(lines, IsFiller, k);
  }

  /** The stripped text of the first line that is neither blank nor a
      comment, or empty when there is none. */
  function FirstContent(lines: seq<string>): (r: string)
    ensures !StartsWith(r, "%")
  {
    var k := FirstContentIndex(lines);
    if k < |lines| then Strip(lines[k]) else []
  }

  /** The first content is empty exactly when every line is filler, and is
      otherwise the stripped first line that is not. */
  lemma FirstContentShape(lines: seq<string>)
    ensures FirstContent(lines) == [] <==> forall i :: 0 <= i < |lines| ==> IsFiller(lines[i])
    ensures FirstContent(lines) != [] ==> FirstContent(lines) == Strip(lines[FirstContentIndex(lines)])
  {
    var k := FirstContentIndex(lines);
    if k == |lines| {
      forall i | 0 <= i < |lines|
        ensures IsFiller(lines[i])
      {
        FillerBeforeContent(lines, i);
      }
    }
  }

  /** `leading_content`: the first content line of a statement, stripped. */
  function LeadingContent(stmt: string): string {
    FirstContent(SplitLines(stmt))
  }

  /** Where `classify_statements` sends a statement: nowhere, to the base
      part (with the text it stores there), or to the rules to guard. */
  datatype Kind = Dropped | Base(text: string) | Dynamic

  function KindOf(stmt: string): Kind {
    var stripped := Strip(stmt);
    if stripped == [] || IsDirective(stripped) then Dropped
    else ContentKind(stmt, stripped, LeadingContent(stmt))
  }

  /** Where a statement that is neither blank nor a directive goes, given
      its stripped text and its leading content: a rule to guard exactly
      when that content is not a comment and has `:-`, otherwise the base
      part, with text that ends its line and begins with the statement. */
  function ContentKind(stmt: string, stripped: string, content: string): (r: Kind)
    ensures r != Dropped
    ensures r == Dynamic <==> !StartsWith(content, "%") && Contains(content, ":-")
    ensures r.Base? ==> EndsWith(r.text, "\n") && StartsWith(r.text, RStrip(stmt))
  {
    if content == [] then Base(WithNewline(stmt))
    else if StartsWith(content, "%") then Base(WithNewline(stmt))
    else if Contains(content, ":-") then Dynamic
    else if EndsWith(stripped, ".") then Base(WithNewline(stmt))
    else Base(RStrip(stmt) + "\n")
  }

  /** Blank statements and directives are dropped; of the rest, exactly
      those whose leading content has `:-` are rules to guard; every stored
      base text ends its line and begins with the statement's own text. */
  lemma KindOfShape(stmt: string)
    ensures KindOf(stmt) == Dropped <==> Strip(stmt) == [] || IsDirective(Strip(stmt))
    ensures KindOf(stmt) == Dynamic <==> KindOf(stmt) != Dropped && Contains(LeadingContent(stmt), ":-")
    ensures KindOf(stmt).Base? ==> EndsWith(KindOf(stmt).text, "\n") && StartsWith(KindOf(stmt).text, RStrip(stmt))
  {
  }

  function BaseText(stmt: string): Option<string> {
    match KindOf(stmt)
    case Base(text) => Some(text)
    case _ => None
  }

  predicate IsDynamic(stmt: string) {
    KindOf(stmt) == Dynamic
  }

  /** The comment test of `classify_statements` never fires: the leading
      content of a statement never starts with `%`. */
  lemma CommentContentUnreachable(stmt: string)
    ensures !StartsWith(LeadingContent(stmt), "%")
  {
  }

  /** The body of the loop in `classify_statements` for one statement, test
      by test in the order the rewriter makes them. */
  method Classify(stmt: string) returns (kind: Kind)
    ensures kind == KindOf(stmt)
  {
    var stripped := Strip(stmt);
    if stripped == [] {
      return Dropped;
    }
    if IsDirective(stripped) {
      return Dropped;
    }
    var content := LeadingContent(stmt);
    if content == [] {
      return Base(WithNewline(stmt));
    }
    if StartsWith(content, "%") {
      return Base(WithNewline(stmt));
    }
    if Contains(content, ":-") {
      kind := Dynamic;
    } else if EndsWith(stripped, ".") {
      kind := Base(WithNewline(stmt));
    } else {
      kind := Base(RStrip(stmt) + "\n");
    }
  }

  /** `classify_statements`: blank statements and directives are dropped;
      a statement whose first content line has `:-` goes to the rules to
      guard, unchanged; every other one goes to the base part. */
  method ClassifyStatements(statements: seq<string>) returns (base: seq<string>, dynamic: seq<string>)
    ensures base == Seqs.FilterMap(statements, BaseText)
    ensures dynamic == Seqs.Filter(statements, IsDynamic)
  {
    base, dynamic := [], [];
    for i := 0 to |statements|
      invariant base == Seqs.FilterMap(statements[..i], BaseText)
      invariant dynamic == Seqs.Filter(statements[..i], IsDynamic)
    {
      var stmt := statements[i];
      Seqs.FilterMapPrefixStep(statements, i, BaseText);
      Seqs.FilterPrefixStep(statements, i, IsDynamic);
      var kind := Classify(stmt);
      match kind
      case Base(text) =>
        base := base + [text];
      case Dynamic =>
        dynamic := dynamic + [stmt];
      case Dropped =>
    }
    assert statements[..|statements|] == statements;
  }

  /** Every text stored for the base part ends its line, and every rule to
      guard has a leading content line with `:-`; both keep input order. */
  lemma ClassifiedShapes(statements: seq<string>, x: string)
    ensures x in Seqs.FilterMap(statements, BaseText) ==> EndsWith(x, "\n")
    ensures x in Seqs.Filter(statements, IsDynamic) <==>
      (x in statements && Contains(LeadingContent(x), ":-") && Strip(x) != [] && !IsDirective(Strip(x)))
  {
    Seqs.FilterMapMembers(statements, BaseText, x);
    Seqs.FilterMembers(statements, IsDynamic, x);
    KindOfShape(x);
    if x in Seqs.FilterMap(statements, BaseText) {
      var i :| 0 <= i < |statements| && BaseText(statements[i]) == Some(x);
      KindOfShape(statements[i]);
    }
  }

  /** One line of an indented block: the stripped line after four spaces, or
      nothing for a blank line. */
  function IndentLine(line: string): string {
    if Strip(line) == [] then [] else "    " + Strip(line)
  }

  /** `indent_block`: the lines of `text`, each indented, joined by '\n'. */
  function IndentBlock(text: string): string {
    if text == [] then [] else Join("\n", Seqs.Map(SplitLines(text), IndentLine))
  }

  /** The lines of an indented block are the lines of the text, each
      stripped and indented, or emptied when blank; empty text gives an
      empty block. */
  lemma IndentBlockLines(text: string)
    ensures text == [] ==> IndentBlock(text) == []
    ensures text != [] ==> SplitOn(IndentBlock(text), '\n') == Seqs.Map(SplitLines(text), IndentLine)
  {
    if text != [] {
      NoNewlineInIndented(text);
      SplitOnJoin(Seqs.Map(SplitLines(text), IndentLine), '\n');
    }
  }

  lemma NoNewlineInIndented(text: string)
    requires text != []
    ensures var ls := Seqs.Map(SplitLines(text), IndentLine);
      ls != [] && forall i :: 0 <= i < |ls| ==> '\n' !in ls[i]
  {
    var lines := Lines(text);
    assert Concat(lines) == text;
    LinesShape(text);
    forall i | 0 <= i < |lines|
      ensures '\n' !in IndentLine(LineText(lines[i]))
    {
      var t := LineText(lines[i]);
      assert '\n' !in t by {
        if EndsWith(lines[i], "\n") {
          assert t == lines[i][..|lines[i]| - 1];
        } else {
          assert lines[i][|lines[i]| - 1] != '\n';
          assert lines[i] == lines[i][..|lines[i]| - 1] + [lines[i][|lines[i]| - 1]];
        }
      }
      StripInside(t);
    }
  }
}
