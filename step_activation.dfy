/** The activation generator: collects the step labels a facts file declares
    with `#program step(<label>).` and writes, for one-shot runs, a base
    program that switches on every step and check guard of every step. */
module StepActivation {
  import opened Wrappers
  import opened Text
  import Seqs

  const Keyword := "#program"
  const StepOpen := "step("
  const StepClose := ")."

  /** `s` is matched at its start by `#program\s+step\(([^)]+)\)\.`: the
      keyword, at least one whitespace character, `step(`, the captured label
      (at least one character, none of them `)`), `).`, then anything. */
  predicate Matches(s: string, space: string, name: string, rest: string) {
    space != [] && AllSpace(space) && name != [] && ')' !in name
    && s == Keyword + (space + (StepOpen + (name + (StepClose + rest))))
  }

  /** The label the step pattern captures at the start of `s`. */
  function LabelOf(s: string): (r: Option<string>)
    ensures r.Some? ==> r.value != [] && ')' !in r.value
  {
    if !StartsWith(s, Keyword) then None
    else
      var afterKeyword := s[|Keyword|..];
      var t := LStrip(afterKeyword);
      if |t| == |afterKeyword| || !StartsWith(t, StepOpen) then None
      else
        var u := t[|StepOpen|..];
        match IndexOf(u, ')')
        case None => None
        case Some(k) =>
          if k > 0 && StartsWith(u[k..], StepClose) then Some(u[..k]) else None
  }

  /** The label `collect_steps` captures from one line: the pattern is
      matched against the stripped line. */
  function StepLabel(line: string): (r: Option<string>)
    ensures r.Some? ==> r.value != [] && ')' !in r.value
  {
    LabelOf(Strip(line))
  }

  /** The text after the opening parenthesis holds the label up to the first
      `)`, which opens `).`. */
  lemma LabelEnd(name: string, rest: string)
    requires ')' !in name
    ensures var u := name + (StepClose + rest);
      IndexOf(u, ')') == Some(|name|) && u[..|name|] == name && StartsWith(u[|name|..], StepClose)
  {
    var u := name + (StepClose + rest);
    assert u[|name|] == ')';
    assert u[..|name|] == name;
    IndexOfIs(u, ')', |name|);
    assert u[|name|..] == StepClose + rest;
    StartsWithAppend(StepClose, rest);
  }

  /** A match splits the text in one way only, and `LabelOf` finds it. */
  lemma MatchFound(s: string, space: string, name: string, rest: string)
    requires Matches(s, space, name, rest)
    ensures LabelOf(s) == Some(name)
  {
    var u := name + (StepClose + rest);
    var t := StepOpen + u;
    StartsWithAppend(Keyword, space + t);
    assert s[|Keyword|..] == space + t;
    assert t[0] == 's';
    LStripSpace(space, t);
    StartsWithAppend(StepOpen, u);
    assert t[|StepOpen|..] == u;
    LabelEnd(name, rest);
  }

  /** Text split where a known front ends and `).` starts. */
  lemma SplitAfter(u: string, k: nat, name: string) returns (rest: string)
    requires k <= |u| && u[..k] == name && StartsWith(u[k..], StepClose)
    ensures u == name + (StepClose + rest)
  {
    var tail := u[k..];
    rest := tail[|StepClose|..];
    assert tail == tail[..|StepClose|] + rest;
    assert u == u[..k] + tail;
  }

  /** What `LabelOf` captures comes from a match. */
  lemma MatchOfLabel(s: string, name: string) returns (space: string, rest: string)
    requires LabelOf(s) == Some(name)
    ensures Matches(s, space, name, rest)
  {
    assert StartsWith(s, Keyword);
    var afterKeyword := s[|Keyword|..];
    var t := LStrip(afterKeyword);
    assert |t| < |afterKeyword| && StartsWith(t, StepOpen);
    var u := t[|StepOpen|..];
    var k := IndexOf(u, ')').value;
    rest := SplitAfter(u, k, name);
    assert t == StepOpen + u by {
      assert t == t[..|StepOpen|] + u;
    }
    space := SplitSpace(afterKeyword);
    assert s == Keyword + afterKeyword by {
      assert s == s[..|Keyword|] + afterKeyword;
    }
  }

  /** A line contributes the label `name` exactly when its stripped text is
      matched by the step pattern with that label. */
  lemma StepLabelMeaning(line: string, name: string)
    ensures StepLabel(line) == Some(name) <==>
      exists space, rest :: Matches(Strip(line), space, name, rest)
  {
    var s := Strip(line);
    if StepLabel(line) == Some(name) {
      var space, rest := MatchOfLabel(s, name);
    }
    if exists space, rest :: Matches(s, space, name, rest) {
      var space, rest :| Matches(s, space, name, rest);
      MatchFound(s, space, name, rest);
    }
  }

  /** The labels the file declares, in file order, repetitions included. */
  function Labels(lines: seq<string>): seq<string> {
    Seqs.FilterMap(lines, StepLabel)
  }

  /** What `collect_steps` returns. */
  function Steps(lines: seq<string>): seq<string> {
    Seqs.Dedup(Labels(lines))
  }

  /** `collect_steps`: one pass collecting the matched labels, then a second
      keeping each label the first time it is met. */
  method CollectSteps(lines: seq<string>) returns (unique: seq<string>)
    ensures unique == Steps(lines)
  {
    var steps := [];
    for i := 0 to |lines|
      invariant steps == Labels(lines[..i])
    {
      Seqs.FilterMapPrefixStep(lines, i, StepLabel);
      match StepLabel(lines[i]) {
        case Some(name) => steps := steps + [name];
        case None =>
      }
    }
    assert lines[..|lines|] == lines;
    unique := [];
    for i := 0 to |steps|
      invariant unique == Seqs.Dedup(steps[..i])
    {
      assert steps[..i + 1][..i] == steps[..i];
      if steps[i] !in unique {
        unique := unique + [steps[i]];
      }
    }
    assert steps[..|steps|] == steps;
  }

  /** The collected steps hold every captured label and nothing else, once
      each. */
  lemma StepsMembers(lines: seq<string>, name: string)
    ensures Seqs.NoDuplicates(Steps(lines))
    ensures name in Steps(lines) <==> exists i :: 0 <= i < |lines| && StepLabel(lines[i]) == Some(name)
  {
    Seqs.FilterMapMembers(lines, StepLabel, name);
  }

  /** The collected steps keep the order in which labels are first met: of
      two steps, the first one is captured from an earlier line than the
      first line the second one is captured from. */
  lemma {:induction false} StepsFirstSeen(lines: seq<string>, i: nat, j: nat)
    requires i < j < |Steps(lines)|
    ensures exists a :: (0 <= a < |lines| && StepLabel(lines[a]) == Some(Steps(lines)[i]) &&
      forall b :: 0 <= b <= a ==> StepLabel(lines[b]) != Some(Steps(lines)[j]))
  {
    var labels := Labels(lines);
    Seqs.DedupFirstSeen(labels, i, j);
    var x :| 0 <= x < |labels| && labels[x] == Steps(lines)[i] && Steps(lines)[j] !in labels[..x + 1];
    var a := Seqs.FilterMapPrefixOf(lines, StepLabel, x);
    forall b | 0 <= b <= a
      ensures StepLabel(lines[b]) != Some(Steps(lines)[j])
    {
      if StepLabel(lines[b]) == Some(Steps(lines)[j]) {
        assert lines[..a + 1][b] == lines[b];
        Seqs.FilterMapProduces(lines[..a + 1], StepLabel, b);
      }
    }
  }

  /** The guard of every stage, in the order the activation lists them. */
  const Guards := ["use_temporal_index", "use_simple_events", "use_expansion", "use_linear",
                   "use_meta_events", "use_repair", "use_preference"]

  /** The fact that switches `guard` on for `step`, on its own line. */
  function Fact(guard: string, step: string): string {
    guard + "(" + step + ").\n"
  }

  /** The lines written for one step: its seven guard facts, then a blank line. */
  function StepLines(step: string): (r: seq<string>)
    ensures |r| == |Guards| + 1
  {
    seq(|Guards| + 1, k requires 0 <= k <= |Guards| => if k < |Guards| then Fact(Guards[k], step) else "\n")
  }

  const BaseLines := ["#program base.\n", "\n"]

  /** The lines `write_activation` writes: the base program line and a blank
      line, then the lines of every step in turn. */
  function ActivationLines(steps: seq<string>): seq<string> {
    BaseLines + Seqs.Flatten(Seqs.Map(steps, StepLines))
  }

  /** One more step adds its lines at the end. */
  lemma ActivationSnoc(steps: seq<string>, step: string)
    ensures ActivationLines(steps + [step]) == ActivationLines(steps) + StepLines(step)
  {
    var m := Seqs.Map(steps, StepLines);
    var m' := Seqs.Map(steps + [step], StepLines);
    assert m' == m + [StepLines(step)];
    assert m'[..|m'| - 1] == m;
    assert Seqs.Flatten(m') == Seqs.Flatten(m) + StepLines(step);
    Seqs.Associative(BaseLines, Seqs.Flatten(m), StepLines(step));
  }

  /** Appending the next line to text holding the first `k` lines. */
  lemma WriteNext(out: string, lines: seq<string>, k: nat)
    requires k < |lines|
    ensures out + ConcatRange(lines, 0, k) + lines[k] == out + ConcatRange(lines, 0, k + 1)
  {
    Seqs.Associative(out, ConcatRange(lines, 0, k), lines[k]);
  }

  /** The seven writes for one step. */
  method WriteStep(out: string, step: string) returns (r: string)
    ensures r == out + Concat(StepLines(step))
  {
    ghost var lines := StepLines(step);
    assert out + ConcatRange(lines, 0, 0) == out;
    WriteNext(out, lines, 0);
    r := out + Fact("use_temporal_index", step);
    WriteNext(out, lines, 1);
    r := r + Fact("use_simple_events", step);
    WriteNext(out, lines, 2);
    r := r + Fact("use_expansion", step);
    WriteNext(out, lines, 3);
    r := r + Fact("use_linear", step);
    WriteNext(out, lines, 4);
    r := r + Fact("use_meta_events", step);
    WriteNext(out, lines, 5);
    r := r + Fact("use_repair", step);
    WriteNext(out, lines, 6);
    WriteNext(out, lines, 7);
    Seqs.Associative(r, Fact("use_preference", step), "\n");
    r := r + (Fact("use_preference", step) + "\n");
    ConcatRangeIs(lines, 0, 8);
    assert lines[0..8] == lines;
  }

  /** `write_activation`, its output file as the text written. */
  method WriteActivation(steps: seq<string>) returns (out: string)
    ensures out == Concat(ActivationLines(steps))
  {
    out := "#program base.\n\n";
    BaseText();
    assert steps[..0] == [];
    for i := 0 to |steps|
      invariant out == Concat(ActivationLines(steps[..i]))
    {
      assert steps[..i + 1] == steps[..i] + [steps[i]];
      ActivationSnoc(steps[..i], steps[i]);
      ConcatAppend(ActivationLines(steps[..i]), StepLines(steps[i]));
      out := WriteStep(out, steps[i]);
    }
    assert steps[..|steps|] == steps;
  }

  /** The error `main` raises when the facts file declares no step. */
  datatype ActivationError = NoStepDirectives

  /** `main` once the facts file is read: the activation text, or the error
      when no step is declared, in which case nothing is written. */
  method Generate(lines: seq<string>) returns (r: Result<string, ActivationError>)
    ensures r.Failure? <==> Labels(lines) == []
    ensures r.Success? ==> r.value == Concat(ActivationLines(Steps(lines)))
  {
    var steps := CollectSteps(lines);
    if steps == [] {
      assert Labels(lines) == [];
      return Failure(NoStepDirectives);
    }
    var text := WriteActivation(steps);
    return Success(text);
  }

  /** Without steps, only the base program line and a blank line are written. */
  lemma BaseText()
    ensures ActivationLines([]) == BaseLines
    ensures Concat(BaseLines) == "#program base.\n\n"
  {
    assert Seqs.Map([], StepLines) == [];
    assert BaseLines + [] == BaseLines;
    ConcatCons("#program base.\n", ["\n"]);
    ConcatCons("\n", []);
  }

  /** The activation text starts with the base program and a blank line. */
  lemma ActivationStart(steps: seq<string>)
    ensures StartsWith(Concat(ActivationLines(steps)), "#program base.\n\n")
  {
    var rest := Seqs.Flatten(Seqs.Map(steps, StepLines));
    ConcatAppend(BaseLines, rest);
    BaseText();
    StartsWithAppend("#program base.\n\n", Concat(rest));
  }

  /** A guard fact, as opposed to the base line and the blank lines. */
  predicate IsGuardFact(line: string) {
    StartsWith(line, "use_")
  }

  /** Seven guard facts per step, whatever the steps are. */
  lemma {:induction false} GuardFactCount(steps: seq<string>)
    ensures |Seqs.Filter(ActivationLines(steps), IsGuardFact)| == 7 * |steps|
  {
    if steps == [] {
      BaseText();
      var a, b := BaseLines[0], BaseLines[1];
      assert a[0] == '#';
      assert !IsGuardFact(a) && !IsGuardFact(b);
      assert BaseLines[..1] == [a] && BaseLines[..1][..0] == [];
      assert Seqs.Filter([a], IsGuardFact) == [];
    } else {
      var init, last := steps[..|steps| - 1], steps[|steps| - 1];
      assert steps == init + [last];
      ActivationSnoc(init, last);
      GuardFactCount(init);
      Seqs.FilterAppend(ActivationLines(init), StepLines(last), IsGuardFact);
      StepGuardFacts(last);
    }
  }

  /** Of one step's lines, all but the blank line are guard facts. */
  lemma StepGuardFacts(step: string)
    ensures |Seqs.Filter(StepLines(step), IsGuardFact)| == 7
  {
    var l := StepLines(step);
    StepGuardLines(step);
    assert l == l[..7] + [l[7]];
    Seqs.FilterAll(l[..7], IsGuardFact);
    Seqs.FilterAppend(l[..7], [l[7]], IsGuardFact);
    assert l[7] == "\n";
    assert Seqs.Filter([l[7]], IsGuardFact) == [];
  }

  /** The first seven lines of a step are its guard facts. */
  lemma StepGuardLines(step: string)
    ensures |StepLines(step)| == 8
    ensures forall k :: 0 <= k < 7 ==> IsGuardFact(StepLines(step)[k])
  {
    var l := StepLines(step);
    forall k | 0 <= k < 7 ensures IsGuardFact(l[k]) {
      assert l[k] == Guards[k] + ("(" + step + ").\n");
      StartsWithPrefix(l[k], Guards[k], "use_");
    }
  }

  /** Line `k` of the lines written for step `i` is line `2 + 8 * i + k` of
      the activation: the steps follow each other, each with its seven guard
      facts in the fixed order and its blank line. */
  lemma ActivationLayout(steps: seq<string>, i: nat, k: nat)
    requires i < |steps| && k <= |Guards|
    ensures var lines := ActivationLines(steps);
      |lines| == 2 + 8 * |steps| && lines[2 + 8 * i + k] == StepLines(steps[i])[k]
  {
    var m := Seqs.Map(steps, StepLines);
    Seqs.FlattenUniformLength(m, 8);
    Seqs.FlattenUniformAt(m, 8, i, k);
  }

  /** Every written line is complete when the steps are on one line. */
  lemma {:induction false} ActivationComplete(steps: seq<string>)
    requires forall i :: 0 <= i < |steps| ==> '\n' !in steps[i]
    ensures AllComplete(ActivationLines(steps))
  {
    if steps == [] {
      BaseText();
    } else {
      var init, last := steps[..|steps| - 1], steps[|steps| - 1];
      assert steps == init + [last];
      ActivationSnoc(init, last);
      assert forall i :: 0 <= i < |init| ==> init[i] == steps[i];
      ActivationComplete(init);
      StepComplete(last);
      var a, b := ActivationLines(init), StepLines(last);
      forall j | 0 <= j < |a + b| ensures IsLine((a + b)[j]) {
        if j >= |a| {
          assert (a + b)[j] == b[j - |a|];
        }
      }
    }
  }

  /** The lines of one step are complete when the step is on one line. */
  lemma StepComplete(step: string)
    requires '\n' !in step
    ensures AllComplete(StepLines(step))
  {
    var l := StepLines(step);
    forall k | 0 <= k < 7 ensures IsLine(l[k]) {
      var g := Guards[k];
      assert '\n' !in g;
      var body := g + "(" + step + ").";
      assert l[k] == body + "\n";
      assert l[k][..|l[k]| - 1] == body;
    }
    assert l[7] == "\n";
  }

  /** Stripping a line removes its line break. */
  lemma StripNoNewline(l: string)
    requires forall j :: 0 <= j < |l| - 1 ==> l[j] != '\n'
    ensures '\n' !in Strip(l)
  {
    var left := LStrip(l);
    LStripSuffix(l);
    var r := RStrip(left);
    forall j | 0 <= j < |r| ensures r[j] != '\n' {
      assert r[j] == left[j] == l[|l| - |left| + j];
      if |l| - |left| + j == |l| - 1 {
        assert j == |r| - 1;
      }
    }
  }

  /** A label captured from a line of a text is on one line. */
  lemma LabelOneLine(line: string, name: string)
    requires forall j :: 0 <= j < |line| - 1 ==> line[j] != '\n'
    requires StepLabel(line) == Some(name)
    ensures '\n' !in name
  {
    var s := Strip(line);
    StripNoNewline(line);
    StepLabelMeaning(line, name);
    var space, rest :| Matches(s, space, name, rest);
    var p := |Keyword| + |space| + |StepOpen|;
    forall j | 0 <= j < |name| ensures name[j] != '\n' {
      assert name[j] == s[p + j];
    }
  }

  /** The steps collected from a text are on one line each, so the activation
      written for them reads back as exactly the lines written. */
  lemma ActivationReadsBack(text: string)
    ensures var lines := ActivationLines(Steps(Lines(text)));
      Lines(Concat(lines)) == lines
  {
    var ls := Lines(text);
    var steps := Steps(ls);
    LinesShape(text);
    forall i | 0 <= i < |steps| ensures '\n' !in steps[i] {
      StepsMembers(ls, steps[i]);
      var n :| 0 <= n < |ls| && StepLabel(ls[n]) == Some(steps[i]);
      assert '\n' !in ls[n][..|ls[n]| - 1];
      forall j | 0 <= j < |ls[n]| - 1 ensures ls[n][j] != '\n' {
        assert ls[n][j] == ls[n][..|ls[n]| - 1][j];
      }
      LabelOneLine(ls[n], steps[i]);
    }
    ActivationComplete(steps);
    LinesOfLines(ActivationLines(steps));
  }
}
