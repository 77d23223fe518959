/** The meta-event rewriter: the statements of a raw meta-event file go to the
    base program, or, when their first content line is a rule, are guarded by
    `use_meta_events(t)` and placed in the `check(t)` subprogram.

    Splitting into statements, classifying them and indenting a body are the
    same code as for simple events and are shared through `AspStatements`. */
module MetaEvents {
  import opened Wrappers
  import opened Text
  import Seqs
  import AspStatements

  /** The guard every rewritten rule gets, indented. */
  const Guard := "    use_meta_events(t)"

  /** `body_raw.strip()` without its final `.`; unlike the simple-event
      rewriter the text before that `.` is not stripped again. */
  function CleanBody(bodyRaw: string): (r: string)
    ensures |r| <= |bodyRaw| && (r == Strip(bodyRaw) || r + "." == Strip(bodyRaw))
  {
    var b := Strip(bodyRaw);
    if EndsWith(b, ".") then
      assert b[..|b| - 1] + "." == b;
      b[..|b| - 1]
    else b
  }

  /** The rule `head :-` over the guard and the indented body. */
  function GuardedRule(head: string, body: string): string {
    var block := AspStatements.IndentBlock(body);
    var combined := if block != [] then Guard + ",\n" + block else Guard;
    (if head != [] then head else ":-") + " :-\n" + combined + "."
  }

  /** `transform_rule`. */
  function TransformRule(statement: string): string {
    var raw := Strip(statement);
    match SplitOnce(raw, ":-")
    case None => if EndsWith(raw, ".") then raw else raw + "."
    case Some((headRaw, bodyRaw)) => GuardedRule(Strip(headRaw), CleanBody(bodyRaw))
  }

  /** A fact comes back stripped and ending in `.`: the one it had, or one
      added. */
  lemma TransformFact(statement: string)
    requires !Contains(Strip(statement), ":-")
    ensures var raw := Strip(statement);
      var r := TransformRule(statement);
      StartsWith(r, raw) && EndsWith(r, ".") && |r| <= |raw| + 1
      && (EndsWith(raw, ".") ==> r == raw)
  {
    var raw := Strip(statement);
    if !EndsWith(raw, ".") {
      StartsWithAppend(raw, ".");
      assert (raw + ".")[|raw + "."| - 1..] == ".";
    } else {
      assert raw[..|raw|] == raw;
    }
  }

  /** The layout of a guarded rule over any front text and body block. */
  lemma RuleLayout(lead: string, block: string)
    ensures var r := lead + (if block != [] then Guard + ",\n" + block else Guard) + ".";
      StartsWith(r, lead + Guard) && EndsWith(r, ".")
      && (block != [] ==> |lead| + |Guard| + 2 <= |r| - 1 && r[|lead| + |Guard| + 2..|r| - 1] == block)
      && (block == [] ==> r == lead + Guard + ".")
  {
    var rest := if block != [] then ",\n" + block + "." else ".";
    var r := lead + (if block != [] then Guard + ",\n" + block else Guard) + ".";
    assert r == (lead + Guard) + rest;
    StartsWithAppend(lead + Guard, rest);
    assert r[|r| - 1..] == ".";
    if block != [] {
      assert r[|lead| + |Guard| + 2..|r| - 1] == block;
    }
  }

  /** A rule becomes `head :-` (with `:-` for an empty head), then the guard
      as the first body literal, then, after `,` and a line break, the
      indented body lines when there are any, then `.`. */
  lemma TransformRuleShape(statement: string, headRaw: string, bodyRaw: string)
    requires SplitOnce(Strip(statement), ":-") == Some((headRaw, bodyRaw))
    ensures var head := if Strip(headRaw) == [] then ":-" else Strip(headRaw);
      var lead := head + " :-\n";
      var block := AspStatements.IndentBlock(CleanBody(bodyRaw));
      var r := TransformRule(statement);
      StartsWith(r, lead + Guard) && EndsWith(r, ".")
      && (block != [] ==> |lead| + |Guard| + 2 <= |r| - 1 && r[|lead| + |Guard| + 2..|r| - 1] == block)
      && (block == [] ==> r == lead + Guard + ".")
  {
    var head := if Strip(headRaw) == [] then ":-" else Strip(headRaw);
    RuleLayout(head + " :-\n", AspStatements.IndentBlock(CleanBody(bodyRaw)));
  }

  /** The `check(t)` program line, and the declaration of the guard with the
      blank line after it. */
  const CheckProgram := "#program check(t).\n"
  const ExternalLine := "#external use_meta_events(t)."
  const CheckExternal := ExternalLine + "\n\n"

  /** The parts `build_output` adds for the first `n` rules: each rewritten
      rule followed by a blank line. */
  function RuleParts(dynamic: seq<string>, n: nat): seq<string>
    requires n <= |dynamic|
  {
    if n == 0 then [] else RuleParts(dynamic, n - 1) + [TransformRule(dynamic[n - 1]), "\n\n"]
  }

  /** The parts `build_output` joins: the base statements, then, only when
      there are rules, the check header and each rewritten rule. */
  function Parts(base: seq<string>, dynamic: seq<string>): seq<string> {
    if dynamic == [] then base else base + [CheckProgram, CheckExternal] + RuleParts(dynamic, |dynamic|)
  }

  /** Joined parts with trailing white space replaced by one line break. */
  function Render(parts: seq<string>): string {
    RStrip(Concat(parts)) + "\n"
  }

  /** The text `build_output` writes. */
  function Output(base: seq<string>, dynamic: seq<string>): string {
    Render(Parts(base, dynamic))
  }

  /** `build_output`. */
  method BuildOutput(base: seq<string>, dynamic: seq<string>) returns (text: string)
    ensures text == Output(base, dynamic)
  {
    var parts := base;
    if dynamic != [] {
      parts := parts + [CheckProgram, CheckExternal];
      ghost var header := parts;
      for i := 0 to |dynamic|
        invariant parts == header + RuleParts(dynamic, i)
      {
        var rule := TransformRule(dynamic[i]);
        Seqs.SnocTwice(header, RuleParts(dynamic, i), rule, "\n\n");
        parts := parts + [rule];
        parts := parts + ["\n\n"];
      }
    }
    assert parts == Parts(base, dynamic);
    text := Render(parts);
  }

  /** The joined parts: the base statements, then the check header and the
      rules when there are any. */
  lemma PartsText(base: seq<string>, dynamic: seq<string>)
    ensures dynamic == [] ==> Concat(Parts(base, dynamic)) == Concat(base)
    ensures var rules := Concat(RuleParts(dynamic, |dynamic|));
      dynamic != [] ==> Concat(Parts(base, dynamic)) == Concat(base) + CheckProgram + ExternalLine + ("\n\n" + rules)
  {
    if dynamic != [] {
      HeaderText(base, RuleParts(dynamic, |dynamic|));
    }
  }

  /** The header between the base statements and any run of parts. */
  lemma HeaderText(base: seq<string>, rules: seq<string>)
    ensures Concat(base + [CheckProgram, CheckExternal] + rules)
      == Concat(base) + CheckProgram + ExternalLine + ("\n\n" + Concat(rules))
  {
    Seqs.Associative(base, [CheckProgram, CheckExternal], rules);
    ConcatBetween(base, CheckProgram, CheckExternal, rules);
    Seqs.Associative(ExternalLine, "\n\n", Concat(rules));
    Seqs.Associative(Concat(base) + CheckProgram, ExternalLine, "\n\n" + Concat(rules));
  }

  /** Text whose front ends in `.` keeps that front whole. */
  lemma KeepFront(front: string, rest: string)
    requires front != [] && front[|front| - 1] == '.'
    ensures StartsWith(RStrip(front + rest) + "\n", front)
  {
    RStripAppend(front, rest);
    Seqs.Associative(front, RStrip(rest), "\n");
    StartsWithAppend(front, RStrip(rest) + "\n");
  }

  /** The output ends with exactly one line break. */
  lemma OutputEnd(base: seq<string>, dynamic: seq<string>)
    ensures var r := Output(base, dynamic);
      EndsWith(r, "\n") && (|r| == 1 || !IsSpace(r[|r| - 2]))
  {
    RStripNewline(Concat(Parts(base, dynamic)));
  }

  /** The base statements come first; the check header follows them exactly
      when there is at least one rule, and otherwise the output is just the
      base statements. */
  lemma OutputShape(base: seq<string>, dynamic: seq<string>)
    ensures dynamic == [] ==> Output(base, dynamic) == RStrip(Concat(base)) + "\n"
    ensures dynamic != [] ==> StartsWith(Output(base, dynamic), Concat(base) + CheckProgram + ExternalLine)
  {
    PartsText(base, dynamic);
    if dynamic != [] {
      var front := Concat(base) + CheckProgram + ExternalLine;
      assert front[|front| - 1] == ExternalLine[|ExternalLine| - 1];
      KeepFront(front, "\n\n" + Concat(RuleParts(dynamic, |dynamic|)));
    }
  }
}
