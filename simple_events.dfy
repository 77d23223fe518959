/** Wrapping simple-event rules for multi-shot solving: base statements go
    under `#program base.`, and every rule is moved under
    `#program step(t).` with the guard `use_simple_events(t)` and, when its
    head has a time variable, `time_scope(t, V)` put in front of its body. */
module SimpleEvents {
  import opened Wrappers
  import opened Text
  import Seqs
  import TopLevel
  import AspStatements

  /** `detect_time_variable`: the second-to-last top-level argument of the
      head atom, when it starts with an upper-case letter (an ASP variable). */
  function DetectTimeVariable(head: string): (r: Option<string>)
    ensures r.Some? ==> r.value != [] && IsUpper(r.value[0])
  {
    var h := Strip(head);
    if h == [] || h == ":-" then None
    else AtomTimeVariable(h)
  }

  /** The text between the first `(` of a stripped atom and its final `)`. */
  function ArgumentText(h: string): (r: Option<string>)
    ensures r.Some? ==> '(' in h && EndsWith(h, ")")
  {
    if h == [] || !EndsWith(h, ")") then None
    else
      match IndexOf(h, '(')
      case None => None
      case Some(i) =>
        assert h[|h| - 1] == ')';
        Some(h[i + 1..|h| - 1])
  }

  /** The time variable of a stripped atom `name(args)`. */
  function AtomTimeVariable(h: string): (r: Option<string>)
    ensures r.Some? ==> r.value != [] && IsUpper(r.value[0])
  {
    match ArgumentText(h)
    case None => None
    case Some(inner) => TimeArgument(TopLevel.Arguments(TopLevel.Brackets, inner))
  }

  /** The second-to-last argument, stripped, when it starts with an
      upper-case letter. */
  function TimeArgument(args: seq<string>): (r: Option<string>)
    ensures r.Some? ==> r.value != [] && IsUpper(r.value[0])
  {
    if |args| < 2 then None
    else
      var candidate := Strip(args[|args| - 2]);
      if candidate != [] && IsUpper(candidate[0]) then Some(candidate) else None
  }

  /** A time variable is found only in a head that, stripped, has `(` and
      ends with `)`. */
  lemma TimeVariableNeedsParentheses(head: string)
    requires DetectTimeVariable(head).Some?
    ensures '(' in Strip(head) && EndsWith(Strip(head), ")")
  {
    var h := Strip(head);
    assert IndexOf(h, '(').Some?;
  }

  /** A plain piece after a separating comma starts a new piece. */
  lemma CommaThenPlain(n: TopLevel.Nesting, t: string, y: string)
    requires n == TopLevel.Brackets || n == TopLevel.Parens
    requires TopLevel.Plain(y) && TopLevel.DepthAfter(n, t) == 0
    ensures TopLevel.Pieces(n, t + "," + y) == TopLevel.Pieces(n, t) + [y]
    ensures TopLevel.DepthAfter(n, t + "," + y) == 0
  {
    var s1 := t + ",";
    TopLevel.PiecesSnoc(n, t, ',');
    TopLevel.PiecesPlain(n, s1, y);
    var p := TopLevel.Pieces(n, s1);
    assert p == TopLevel.Pieces(n, t) + [[]];
    assert p[..|p| - 1] == TopLevel.Pieces(n, t);
    assert [] + y == y;
  }

  /** Plain pieces between commas are the pieces. */
  lemma PlainPieces(n: TopLevel.Nesting, x: string)
    requires n == TopLevel.Brackets || n == TopLevel.Parens
    requires TopLevel.Plain(x)
    ensures TopLevel.Pieces(n, x) == [x] && TopLevel.DepthAfter(n, x) == 0
  {
    TopLevel.PiecesPlain(n, [], x);
    assert [] + x == x;
  }

  /** Three plain arguments are three pieces. */
  lemma ThreePieces(n: TopLevel.Nesting, x: string, v: string, y: string)
    requires n == TopLevel.Brackets || n == TopLevel.Parens
    requires TopLevel.Plain(x) && TopLevel.Plain(v) && TopLevel.Plain(y)
    ensures TopLevel.Pieces(n, x + "," + v + "," + y) == [x, v, y]
  {
    PlainPieces(n, x);
    CommaThenPlain(n, x, v);
    CommaThenPlain(n, x + "," + v, y);
  }

  /** Two plain arguments and a final comma: an empty piece comes last. */
  lemma TrailingCommaPieces(n: TopLevel.Nesting, x: string, v: string)
    requires n == TopLevel.Brackets || n == TopLevel.Parens
    requires TopLevel.Plain(x) && TopLevel.Plain(v)
    ensures TopLevel.Pieces(n, x + "," + v + ",") == [x, v] + [[]]
  {
    PlainPieces(n, x);
    CommaThenPlain(n, x, v);
    TopLevel.PiecesSnoc(n, x + "," + v, ',');
  }

  /** An atom `name(inner)` whose name is trimmed on the left and has no
      `(`: its first `(` follows the name, and `inner` sits between it and
      the final `)`. */
  lemma AtomParts(name: string, inner: string)
    requires name != [] && !IsSpace(name[0]) && '(' !in name
    ensures var h := name + "(" + inner + ")";
      Strip(h) == h && h != ":-" && EndsWith(h, ")")
      && IndexOf(h, '(') == Some(|name|) && h[|name| + 1..|h| - 1] == inner
  {
    var h := name + "(" + inner + ")";
    assert h[0] == name[0] && h[|h| - 1] == ')';
    StripTrimmed(h);
    assert h[..|name|] == name && h[|name|] == '(';
    IndexOfIs(h, '(', |name|);
    assert |h| > |":-"|;
  }

  /** The time variable of an atom, read from its arguments. */
  lemma AtomArguments(name: string, inner: string)
    requires name != [] && !IsSpace(name[0]) && '(' !in name
    ensures DetectTimeVariable(name + "(" + inner + ")") == TimeArgument(TopLevel.Arguments(TopLevel.Brackets, inner))
  {
    var h := name + "(" + inner + ")";
    var k := |name|;
    assert |h| == k + |inner| + 2;
    var t := h[k + 1..|h| - 1];
    assert DetectTimeVariable(h) == TimeArgument(TopLevel.Arguments(TopLevel.Brackets, t)) by {
      AtomParts(name, inner);
      ArgumentTextAt(h, k);
      DetectAtom(h, t);
    }
    assert t == inner by {
      AtomParts(name, inner);
    }
  }

  lemma ArgumentTextAt(h: string, i: nat)
    requires EndsWith(h, ")") && IndexOf(h, '(') == Some(i)
    ensures i + 1 <= |h| - 1 && ArgumentText(h) == Some(h[i + 1..|h| - 1])
  {
  }

  lemma DetectAtom(h: string, inner: string)
    requires Strip(h) == h && h != ":-" && ArgumentText(h) == Some(inner)
    ensures DetectTimeVariable(h) == TimeArgument(TopLevel.Arguments(TopLevel.Brackets, inner))
  {
  }

  /** Only the argument before the last one matters. */
  lemma TimeArgumentOf(args: seq<string>, v: string)
    requires |args| >= 2 && args[|args| - 2] == Strip(v)
    ensures var c := Strip(v);
      TimeArgument(args) == if c != [] && IsUpper(c[0]) then Some(c) else None
  {
    StripIdempotent(v);
  }

  /** For a head `name(x, V, y)` the time variable is the middle argument,
      stripped, when that is an upper-case word. */
  lemma TimeVariableOfThreeArguments(name: string, x: string, v: string, y: string)
    requires name != [] && !IsSpace(name[0]) && '(' !in name
    requires TopLevel.Plain(x) && TopLevel.Plain(v) && TopLevel.Plain(y) && y != []
    ensures var c := Strip(v);
      DetectTimeVariable(name + "(" + (x + "," + v + "," + y) + ")")
        == if c != [] && IsUpper(c[0]) then Some(c) else None
  {
    var inner := x + "," + v + "," + y;
    AtomArguments(name, inner);
    var args := TopLevel.Arguments(TopLevel.Brackets, inner);
    assert |args| == 3 && args[1] == Strip(v) by {
      ThreePieces(TopLevel.Brackets, x, v, y);
      TopLevel.ArgumentsOfPieces(TopLevel.Brackets, inner, [x, v, y]);
    }
    TimeArgumentOf(args, v);
  }

  /** With an empty last argument (`p(X, T,)`) the argument before the
      variable is taken instead: the trailing empty piece is dropped. */
  lemma TimeVariableAfterTrailingComma(name: string, x: string, v: string)
    requires name != [] && !IsSpace(name[0]) && '(' !in name
    requires TopLevel.Plain(x) && TopLevel.Plain(v)
    ensures var c := Strip(x);
      DetectTimeVariable(name + "(" + (x + "," + v + ",") + ")")
        == if c != [] && IsUpper(c[0]) then Some(c) else None
  {
    var inner := x + "," + v + ",";
    AtomArguments(name, inner);
    var args := TopLevel.Arguments(TopLevel.Brackets, inner);
    assert |args| == 2 && args[0] == Strip(x) by {
      TrailingCommaPieces(TopLevel.Brackets, x, v);
      TopLevel.ArgumentsOfTrailingComma(TopLevel.Brackets, inner, [x, v]);
    }
    TimeArgumentOf(args, x);
  }

  /** A head with a single argument has no time variable. */
  lemma NoTimeVariableOfOneArgument(name: string, x: string)
    requires name != [] && !IsSpace(name[0]) && '(' !in name
    requires TopLevel.Plain(x)
    ensures DetectTimeVariable(name + "(" + x + ")") == None
  {
    AtomArguments(name, x);
    PlainPieces(TopLevel.Brackets, x);
  }

  /** The part of a statement before its first content line, and the rest. */
  function PrefixSplit(s: string): (string, string) {
    var ls := Lines(s);
    var k := AspStatements.FirstContentIndex(ls);
    (Concat(ls[..k]), Concat(ls[k..]))
  }

  /** The split loses nothing; the prefix is the blank and comment lines in
      front of the first content line, which starts the core. */
  lemma PrefixSplitParts(s: string)
    ensures PrefixSplit(s).0 + PrefixSplit(s).1 == s
    ensures var ls := Lines(s); var k := AspStatements.FirstContentIndex(ls);
      (k < |ls| ==> StartsWith(PrefixSplit(s).1, ls[k])) && (k == |ls| ==> PrefixSplit(s).1 == [])
  {
    var ls := Lines(s);
    var k := AspStatements.FirstContentIndex(ls);
    ConcatSplit(ls, k);
    if k < |ls| {
      ConcatStartsWith(ls[k..]);
    }
  }

  /** The split, read off a run of filler lines that ends at a content line
      or at the end. */
  lemma PrefixSplitAt(s: string, lines: seq<string>, k: nat)
    requires lines == Lines(s) && k <= |lines|
    requires forall j :: 0 <= j < k ==> AspStatements.IsFiller(lines[j])
    requires k < |lines| ==> !AspStatements.IsFiller(lines[k])
    ensures PrefixSplit(s) == (ConcatRange(lines, 0, k), ConcatRange(lines, k, |lines|))
  {
    AspStatements.FirstContentIndexIs(lines, k);
    ConcatRangeIs(lines, 0, k);
    ConcatRangeIs(lines, k, |lines|);
    assert lines[0..k] == lines[..k] && lines[k..|lines|] == lines[k..];
  }

  /** `separate_prefix`: lines go to the prefix until the first line that is
      neither blank nor a comment; that line and all after it go to the core. */
  method SeparatePrefix(statement: string) returns (prefix: string, core: string)
    ensures (prefix, core) == PrefixSplit(statement)
  {
    var lines := Lines(statement);
    ghost var k := AspStatements.FirstContentSplit(lines);
    prefix, core := "", "";
    var found := false;
    for i := 0 to |lines|
      invariant !found ==> i <= k && prefix == ConcatRange(lines, 0, i) && core == []
      invariant found ==> k < i && prefix == ConcatRange(lines, 0, k) && core == ConcatRange(lines, k, i)
    {
      var line := lines[i];
      if !found && AspStatements.IsFiller(line) {
        prefix := prefix + line;
        continue;
      }
      found := true;
      core := core + line;
    }
    PrefixSplitAt(statement, lines, k);
  }


  /** `    ` in front of a guard. */
  function Indent(g: string): string {
    "    " + g
  }

  /** The guard every rewritten rule gets. */
  const UseGuard := "use_simple_events(t)"

  /** The guard that ties the time variable `v` of a head to the step. */
  function TimeScope(v: string): string {
    "time_scope(t, " + v + ")"
  }

  /** The guards of a rule: `use_simple_events(t)`, then `time_scope(t, V)`
      when the head has the time variable `V`. */
  function Guards(time: Option<string>): (r: seq<string>)
    ensures r != [] && r[0] == UseGuard
    ensures |r| == 2 <==> time.Some?
    ensures time.Some? ==> r[1] == TimeScope(time.value)
  {
    [UseGuard] +
      match time
      case Some(v) => [TimeScope(v)]
      case None => []
  }

  /** The guards, indented, one per line. */
  function GuardBlock(time: Option<string>): string {
    Join(",\n", Seqs.Map(Guards(time), Indent))
  }

  /** The guard block is the indented `use_simple_events(t)`, followed on
      the next line by the indented `time_scope(t, V)` when there is a time
      variable. */
  lemma GuardBlockText(time: Option<string>)
    ensures time.None? ==> GuardBlock(time) == Indent(UseGuard)
    ensures time.Some? ==> GuardBlock(time) == Indent(UseGuard) + ",\n" + Indent(TimeScope(time.value))
  {
    var gs := Seqs.Map(Guards(time), Indent);
    if time.Some? {
      assert gs == [Indent(UseGuard), Indent(TimeScope(time.value))];
      assert gs[1..] == [Indent(TimeScope(time.value))];
      assert Join(",\n", gs) == gs[0] + ",\n" + Join(",\n", gs[1..]);
    } else {
      assert gs == [Indent(UseGuard)];
    }
  }

  /** A rule body without its surrounding whitespace and final `.`. */
  function CleanBody(bodyRaw: string): (r: string)
    ensures r == [] || !IsSpace(r[|r| - 1])
  {
    var b := Strip(bodyRaw);
    RStrip(if EndsWith(b, ".") then b[..|b| - 1] else b)
  }

  /** The guarded rule for a stripped head, its time variable and its
      cleaned body. */
  function GuardedRule(head: string, time: Option<string>, body: string): string {
    var guardBlock := GuardBlock(time);
    var bodyBlock := AspStatements.IndentBlock(body);
    var combined :=
      if guardBlock != [] && bodyBlock != [] then guardBlock + ",\n" + bodyBlock
      else if guardBlock != [] then guardBlock
      else bodyBlock;
    (if head != [] then head else ":-") + " :-\n" + combined + "."
  }

  /** The body of a guarded rule is the indented guards followed by the
      indented original body, joined by `,` and a line break; an empty head
      becomes `:-`. */
  lemma GuardedRuleLines(head: string, time: Option<string>, body: string)
    ensures var block := AspStatements.IndentBlock(body);
      var parts := Seqs.Map(Guards(time), Indent) + (if block == [] then [] else [block]);
      GuardedRule(head, time, body) == (if head == [] then ":-" else head) + " :-\n" + Join(",\n", parts) + "."
  {
    var gs := Seqs.Map(Guards(time), Indent);
    var block := AspStatements.IndentBlock(body);
    GuardBlockText(time);
    assert GuardBlock(time) != [] by {
      assert |Indent(UseGuard)| > 0;
    }
    if block != [] {
      JoinSnoc(",\n", gs, block);
    } else {
      assert gs + [] == gs;
    }
  }

  /** The layout of a guarded rule over arbitrary texts: its front, the
      first guard and, when present, the second guard, come first. */
  lemma RuleFrame(front: string, first: string, second: string, block: string, timed: bool)
    requires first != []
    ensures var gb := if timed then first + ",\n" + second else first;
      var r := front + (if gb != [] && block != [] then gb + ",\n" + block else if gb != [] then gb else block) + ".";
      StartsWith(r, front + first) && EndsWith(r, ".")
      && (timed ==> StartsWith(r, front + first + ",\n" + second))
  {
    var gb := if timed then first + ",\n" + second else first;
    var rest := if block != [] then ",\n" + block + "." else ".";
    var r := front + (if gb != [] && block != [] then gb + ",\n" + block else if gb != [] then gb else block) + ".";
    assert r == front + gb + rest;
    StartsWithAppend(front + gb, rest);
    if timed {
      Seqs.Associative(front, first, ",\n" + second);
      StartsWithAppend(front + first, ",\n" + second);
      StartsWithPrefix(r, front + gb, front + first);
    }
  }

  /** `use_simple_events(t)` is the first body literal and `time_scope(t, V)`
      the second when the head has the time variable `V`; the rule ends
      with `.`. */
  lemma GuardedRuleStart(head: string, time: Option<string>, body: string)
    ensures var r := GuardedRule(head, time, body);
      var lead := (if head == [] then ":-" else head) + " :-\n" + Indent(UseGuard);
      StartsWith(r, lead) && EndsWith(r, ".")
      && (time.Some? ==> StartsWith(r, lead + ",\n" + Indent(TimeScope(time.value))))
  {
    GuardBlockText(time);
    var second := if time.Some? then Indent(TimeScope(time.value)) else [];
    RuleFrame((if head == [] then ":-" else head) + " :-\n", Indent(UseGuard), second, AspStatements.IndentBlock(body), time.Some?);
  }

  /** `add_guards`. */
  function AddGuards(statement: string): string {
    var raw := StripNewlines(statement);
    if raw == [] then raw
    else
      var (prefix, core) := PrefixSplit(raw);
      if Strip(core) == [] then raw
      else
        match SplitOnce(core, ":-")
        case None => prefix + (if EndsWith(core, ".") then core else core + ".")
        case Some((headRaw, bodyRaw)) =>
          var head := Strip(headRaw);
          prefix + GuardedRule(head, DetectTimeVariable(head), CleanBody(bodyRaw))
  }

  /** A statement that is blank, or only comments, comes back with just its
      outer line breaks removed. */
  lemma AddGuardsNoContent(statement: string)
    requires var raw := StripNewlines(statement); raw == [] || Strip(PrefixSplit(raw).1) == []
    ensures AddGuards(statement) == StripNewlines(statement)
  {
  }

  /** Completing a nonempty last part with `.` completes the whole text. */
  lemma FactFrame(prefix: string, core: string)
    requires core != []
    ensures var raw := prefix + core;
      prefix + (if EndsWith(core, ".") then core else core + ".") == if EndsWith(raw, ".") then raw else raw + "."
  {
    EndsWithAppend(prefix, core, ".");
    Seqs.Associative(prefix, core, ".");
  }

  /** A fact (a statement without `:-`) keeps its text and gains a final `.`
      when it lacks one. */
  lemma AddGuardsFact(statement: string)
    requires var raw := StripNewlines(statement);
      raw != [] && Strip(PrefixSplit(raw).1) != [] && !Contains(PrefixSplit(raw).1, ":-")
    ensures var raw := StripNewlines(statement);
      AddGuards(statement) == if EndsWith(raw, ".") then raw else raw + "."
  {
    var raw := StripNewlines(statement);
    var prefix := PrefixSplit(raw).0;
    var core := PrefixSplit(raw).1;
    assert AddGuards(statement) == prefix + (if EndsWith(core, ".") then core else core + ".");
    PrefixSplitParts(raw);
    assert core != [] by {
      assert Strip(core) != [];
    }
    FactFrame(prefix, core);
  }


  /** A rule keeps the blank and comment lines in front of it, and its head
      (stripped) and body (cleaned) are put into the guarded form with the
      time variable of the head: after the prefix and the head come `:-`
      and `use_simple_events(t)` as the first body literal, then
      `time_scope(t, V)` when the head has the time variable `V`, and the
      rule ends with `.`. */
  lemma AddGuardsRule(statement: string, headRaw: string, bodyRaw: string)
    requires var raw := StripNewlines(statement);
      raw != [] && Strip(PrefixSplit(raw).1) != [] && SplitOnce(PrefixSplit(raw).1, ":-") == Some((headRaw, bodyRaw))
    ensures var head := Strip(headRaw);
      AddGuards(statement) == PrefixSplit(StripNewlines(statement)).0 + GuardedRule(head, DetectTimeVariable(head), CleanBody(bodyRaw))
    ensures var head := Strip(headRaw);
      var time := DetectTimeVariable(head);
      var r := AddGuards(statement);
      var lead := PrefixSplit(StripNewlines(statement)).0 + ((if head == [] then ":-" else head) + " :-\n" + Indent(UseGuard));
      StartsWith(r, lead) && EndsWith(r, ".")
      && (time.Some? ==> StartsWith(r, lead + ",\n" + Indent(TimeScope(time.value))))
  {
    var head := Strip(headRaw);
    AddGuardsRuleText(statement, headRaw, bodyRaw);
    PrefixedRuleStart(PrefixSplit(StripNewlines(statement)).0, head, DetectTimeVariable(head), CleanBody(bodyRaw));
  }

  /** The rule branch of `add_guards`. */
  lemma AddGuardsRuleText(statement: string, headRaw: string, bodyRaw: string)
    requires var raw := StripNewlines(statement);
      raw != [] && Strip(PrefixSplit(raw).1) != [] && SplitOnce(PrefixSplit(raw).1, ":-") == Some((headRaw, bodyRaw))
    ensures var head := Strip(headRaw);
      AddGuards(statement) == PrefixSplit(StripNewlines(statement)).0 + GuardedRule(head, DetectTimeVariable(head), CleanBody(bodyRaw))
  {
  }

  /** `GuardedRuleStart` with the prefix lines in front. */
  lemma PrefixedRuleStart(prefix: string, head: string, time: Option<string>, body: string)
    ensures var r := prefix + GuardedRule(head, time, body);
      var lead := prefix + ((if head == [] then ":-" else head) + " :-\n" + Indent(UseGuard));
      StartsWith(r, lead) && EndsWith(r, ".")
      && (time.Some? ==> StartsWith(r, lead + ",\n" + Indent(TimeScope(time.value))))
  {
    var g := GuardedRule(head, time, body);
    var inner := (if head == [] then ":-" else head) + " :-\n" + Indent(UseGuard);
    GuardedRuleStart(head, time, body);
    StartsWithPrepend(prefix, g, inner);
    EndsWithAppend(prefix, g, ".");
    if time.Some? {
      var x := Indent(TimeScope(time.value));
      StartsWithPrepend(prefix, g, inner + ",\n" + x);
      Seqs.Associative(prefix, inner + ",\n", x);
      Seqs.Associative(prefix, inner, ",\n");
    }
  }

  /** The first lines of every output: the base header. */
  const BaseHeader := "#program base.\n\n"

  /** The step program and the declaration of its guard. */
  const StepDirectives := "#program step(t).\n#external use_simple_events(t)."

  /** The step header: the directives and a blank line. */
  const StepHeader := StepDirectives + "\n\n"

  /** The blank line put after the base statements when the last one does
      not already end with one. */
  function BaseGap(base: seq<string>): string {
    if base != [] && !EndsWith(base[|base| - 1], "\n\n") then "\n" else ""
  }

  /** The text `build_output` writes. */
  function Output(base: seq<string>, dynamic: seq<string>): string {
    RStrip(BaseHeader + Concat(base) + BaseGap(base) + StepHeader + Concat(Seqs.Map(dynamic, Block))) + "\n"
  }

  /** One rewritten rule and the blank line after it. */
  function Block(stmt: string): string {
    AddGuards(stmt) + "\n\n"
  }

  /** `build_output`: the base section, then the step section, with the
      trailing whitespace reduced to one line break. */
  method BuildOutput(base: seq<string>, dynamic: seq<string>) returns (text: string)
    ensures text == Output(base, dynamic)
  {
    var baseSection := [BaseHeader] + base;
    if base != [] && !EndsWith(base[|base| - 1], "\n\n") {
      baseSection := baseSection + ["\n"];
    }
    assert Concat(baseSection) == BaseHeader + Concat(base) + BaseGap(base) by {
      ConcatCons(BaseHeader, base);
      if BaseGap(base) != [] {
        ConcatSnoc([BaseHeader] + base, "\n");
      }
    }
    var stepSection := [StepHeader];
    for i := 0 to |dynamic|
      invariant stepSection == [StepHeader] + Seqs.Map(dynamic[..i], Block)
    {
      Seqs.MapPrefixStep(dynamic, i, Block);
      var transformed := AddGuards(dynamic[i]);
      stepSection := stepSection + [transformed + "\n\n"];
    }
    assert dynamic[..|dynamic|] == dynamic;
    ConcatCons(StepHeader, Seqs.Map(dynamic, Block));
    ConcatAppend(baseSection, stepSection);
    Seqs.Associative(BaseHeader + Concat(base) + BaseGap(base), StepHeader, Concat(Seqs.Map(dynamic, Block)));
    text := RStrip(Concat(baseSection + stepSection)) + "\n";
  }

  /** Text after the step directives loses at most its trailing whitespace. */
  lemma StepTail(front: string, rest: string)
    ensures var r := RStrip(front + StepHeader + rest) + "\n";
      StartsWith(r, front + StepDirectives) && EndsWith(r, "\n") && |r| >= 2 && !IsSpace(r[|r| - 2])
  {
    var p := front + StepDirectives;
    var q := "\n\n" + rest;
    assert front + StepHeader + rest == p + q;
    assert p != [] && p[|p| - 1] == '.' by {
      assert StepDirectives[|StepDirectives| - 1] == '.';
    }
    RStripAppend(p, q);
    var t := RStrip(q);
    assert RStrip(p + q) + "\n" == p + (t + "\n");
  }

  /** The output starts with the base header and the base statements, then
      the step directives, and ends with exactly one line break. */
  lemma OutputShape(base: seq<string>, dynamic: seq<string>)
    ensures var r := Output(base, dynamic);
      StartsWith(r, BaseHeader + Concat(base) + BaseGap(base) + StepDirectives)
      && EndsWith(r, "\n") && |r| >= 2 && !IsSpace(r[|r| - 2])
  {
    StepTail(BaseHeader + Concat(base) + BaseGap(base), Concat(Seqs.Map(dynamic, Block)));
  }
}
