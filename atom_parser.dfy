/** The studio's reading of one `event(...)` atom of a solver witness into a
    timeline event: the arguments are split at top-level commas, the
    interval argument is read as two numbers and the confidence is brought
    into the levels 1 to 3.

    JavaScript numbers are modelled as integers: `Number(s)` is the value of
    an optionally signed decimal literal, 0 for blank text, and `NaN`
    (written `None`) for anything else. */
module AtomParser {
  import opened Wrappers
  import opened Text
  import Seqs
  import TopLevel

  const EventPrefix := "event("

  /** JavaScript `Number(s)` restricted to integer literals. */
  function JsNumber(s: string): Option<int> {
    var t := Strip(s);
    if t == [] then Some(0) else ParseInt(t)
  }

  predicate NotParen(c: char) {
    c != '(' && c != ')'
  }

  /** `raw.replace(/[()]/g, '')`. */
  function WithoutParens(raw: string): (r: string)
    ensures '(' !in r && ')' !in r
  {
    var r := Seqs.Filter(raw, NotParen);
    Seqs.FilterMembers(raw, NotParen, '(');
    Seqs.FilterMembers(raw, NotParen, ')');
    r
  }

  /** What `parseInterval` returns as written: the end stays `undefined`
      (written `None`) when the text has no comma. */
  datatype RawInterval = RawInterval(start: int, end: Option<int>)

  /** `parseInterval` as written: the numbers before and after the first
      comma once parentheses are removed; `null` (written `None`) when one
      of them is `NaN`, but a missing end is not checked. */
  function ParseIntervalAsWritten(raw: string): Option<RawInterval> {
    var pieces := SplitOn(WithoutParens(raw), ',');
    match JsNumber(pieces[0])
    case None => None
    case Some(start) =>
      if |pieces| < 2 then Some(RawInterval(start, None))
      else
        match JsNumber(pieces[1])
        case None => None
        case Some(end) => Some(RawInterval(start, Some(end)))
  }

  /** A text without a comma, such as `(5)`, is accepted as an interval that
      has a start and no end. */
  lemma IntervalWithoutEnd()
    ensures ParseIntervalAsWritten("(5)") == Some(RawInterval(5, None))
  {
    FiveRead();
  }

  /** An interval with a start and an end. */
  datatype Interval = Interval(start: int, end: int)

  /** `parseInterval` with the end checked like the start: `None` unless the
      text has a comma and both numbers read. */
  function ParseInterval(raw: string): Option<Interval> {
    var pieces := SplitOn(WithoutParens(raw), ',');
    if |pieces| < 2 then None
    else
      match (JsNumber(pieces[0]), JsNumber(pieces[1]))
      case (Some(start), Some(end)) => Some(Interval(start, end))
      case _ => None
  }

  /** The checked reading accepts exactly what the written one accepts with
      an end, with the same numbers; the written one accepts, in addition,
      only texts without a comma, and gives them no end. */
  lemma IntervalAgreement(raw: string)
    ensures forall start, end :: (ParseInterval(raw) == Some(Interval(start, end))
      <==> ParseIntervalAsWritten(raw) == Some(RawInterval(start, Some(end))))
    ensures ParseIntervalAsWritten(raw).Some? && ParseInterval(raw).None? ==>
      ParseIntervalAsWritten(raw).value.end.None? && ',' !in WithoutParens(raw)
    ensures ParseInterval(raw).Some? ==> ',' in WithoutParens(raw)
  {
    var cleaned := WithoutParens(raw);
    var pieces := SplitOn(cleaned, ',');
    if |pieces| < 2 {
      JoinSplitOn(cleaned, ',');
      assert Join([','], pieces) == pieces[0];
    }
  }

  /** `(s,e)` with both numbers written in decimal reads back as the
      interval from `s` to `e`. */
  lemma IntervalRoundTrip(start: int, end: int)
    ensures ParseInterval(IntervalText(start, end)) == Some(Interval(start, end))
  {
    var a, b := IntText(start), IntText(end);
    var inner := a + "," + b;
    IntTextPlain(start);
    IntTextPlain(end);
    NoParens(a);
    NoParens(b);
    assert WithoutParens(IntervalText(start, end)) == inner by {
      assert IntervalText(start, end) == "(" + inner + ")";
      assert '(' !in inner && ')' !in inner;
      KeepAllButParens("(", inner, ")");
    }
    assert Join([','], [a, b]) == inner;
    SplitOnJoin([a, b], ',');
    StripTrimmed(a);
    StripTrimmed(b);
    ParseIntText(start);
    ParseIntText(end);
  }

  /** The interval argument written for the interval from `s` to `e`. */
  function IntervalText(start: int, end: int): string {
    "(" + IntText(start) + "," + IntText(end) + ")"
  }

  /** A written integer holds no parenthesis. */
  lemma NoParens(t: string)
    requires forall k :: 0 <= k < |t| ==> t[k] == '-' || IsDigit(t[k])
    ensures '(' !in t && ')' !in t
  {
  }

  /** Removing parentheses from a parenthesised text without any inside. */
  lemma KeepAllButParens(open: string, inner: string, close: string)
    requires open == "(" && close == ")" && '(' !in inner && ')' !in inner
    ensures WithoutParens(open + inner + close) == inner
  {
    var s := open + inner + close;
    Seqs.FilterAppend(open, inner + close, NotParen);
    assert s == open + (inner + close);
    Seqs.FilterAppend(inner, close, NotParen);
    Seqs.FilterAll(inner, NotParen);
    assert Seqs.Filter(open, NotParen) == [] by {
      assert open[..0] == [];
    }
    assert Seqs.Filter(close, NotParen) == [] by {
      assert close[..0] == [];
    }
  }

  const ConfidenceLevels := [1, 2, 3]

  function Min(a: int, b: int): int {
    if a <= b then a else b
  }

  function Max(a: int, b: int): int {
    if a >= b then a else b
  }

  function Distance(a: int, b: int): nat {
    if a >= b then a - b else b - a
  }

  /** The confidence kept when it is a level and otherwise clamped into
      [1, 3] (`Math.round` leaves an integer as it is); `NaN` stays `NaN`. */
  function NormalizeConfidence(c: Option<int>): (r: Option<int>)
    ensures r.None? <==> c.None?
    ensures r.Some? ==> 1 <= r.value <= 3
    ensures r.Some? && 1 <= c.value <= 3 ==> r == c
    ensures r.Some? ==> forall w :: 1 <= w <= 3 ==> Distance(r.value, c.value) <= Distance(w, c.value)
  {
    match c
    case None => None
    case Some(v) => if v in ConfidenceLevels then Some(v) else Some(Min(Max(v, 1), 3))
  }

  /** A timeline event read from an atom. `eventType` is the event's `type`;
      an absent `attribute` and a `NaN` confidence are written `None`. */
  datatype CasperEvent = CasperEvent(
    id: string, eventType: string, patientId: string, attribute: Option<string>,
    start: int, end: int, confidence: Option<int>, raw: string)

  /** The text between `event(` and the final `)`. */
  function Body(atom: string): string
    requires StartsWith(atom, EventPrefix) && EndsWith(atom, ")")
  {
    assert atom[5] == '(' && atom[|atom| - 1] == ')';
    atom[|EventPrefix|..|atom| - 1]
  }

  /** The top-level arguments of an event atom, as `splitArguments` finds them. */
  function EventArguments(atom: string): seq<string>
    requires StartsWith(atom, EventPrefix) && EndsWith(atom, ")")
  {
    TopLevel.Arguments(TopLevel.Parens, Body(atom))
  }

  /** `parseEventAtom`, reading the interval with its end checked. No
      event is read from an atom that does not start with `event(` or end
      with `)`, that has fewer than five top-level arguments, or whose
      arguments give no event; otherwise the event is the one its
      arguments give. The event keeps the atom as its raw text, and a
      confidence that reads is one of the levels. */
  function ParseEventAtom(atom: string): (r: Option<CasperEvent>)
    ensures r.None? <==>
      !StartsWith(atom, EventPrefix) || !EndsWith(atom, ")") || |EventArguments(atom)| < 5
      || EventOfArguments(EventArguments(atom), atom).None?
    ensures r.Some? ==> r == EventOfArguments(EventArguments(atom), atom)
    ensures r.Some? ==> r.value.raw == atom
    ensures r.Some? ==> r.value.confidence.None? || 1 <= r.value.confidence.value <= 3
  {
    if !StartsWith(atom, EventPrefix) || !EndsWith(atom, ")") then None
    else
      var args := EventArguments(atom);
      if |args| < 5 then None else EventOfArguments(args, atom)
  }

  /** The event read from at least five top-level arguments. A fourth
      argument that starts with `(` is the interval, and the confidence
      follows it. Any other fourth argument is the attribute, then come the
      interval and the confidence, which may be missing. The event is
      dropped exactly when the interval has no comma or its start or end is
      not a number. The id, the type and the patient are the first three
      arguments, trimmed, and a confidence that reads is one of the
      levels. */
  function EventOfArguments(args: seq<string>, atom: string): (r: Option<CasperEvent>)
    requires |args| >= 5
    ensures var pieces := SplitOn(WithoutParens(if StartsWith(args[3], "(") then args[3] else args[4]), ',');
      r.None? <==> |pieces| < 2 || JsNumber(pieces[0]).None? || JsNumber(pieces[1]).None?
    ensures var pieces := SplitOn(WithoutParens(if StartsWith(args[3], "(") then args[3] else args[4]), ',');
      r.Some? ==>
        |pieces| >= 2 && JsNumber(pieces[0]) == Some(r.value.start) && JsNumber(pieces[1]) == Some(r.value.end)
        && r.value.id == Strip(args[0]) && r.value.eventType == Strip(args[1])
        && r.value.patientId == Strip(args[2]) && r.value.raw == atom
    ensures r.Some? && StartsWith(args[3], "(") ==>
      r.value.attribute == None && r.value.confidence == NormalizeConfidence(JsNumber(args[4]))
    ensures r.Some? && !StartsWith(args[3], "(") ==>
      r.value.attribute == Some(Strip(args[3]))
      && r.value.confidence == (if |args| > 5 then NormalizeConfidence(JsNumber(args[5])) else None)
    ensures r.Some? ==> r.value.confidence.None? || 1 <= r.value.confidence.value <= 3
  {
    var hasAttribute := !StartsWith(args[3], "(");
    var intervalArg := if hasAttribute then args[4] else args[3];
    var confidenceArg := if !hasAttribute then Some(args[4]) else if |args| > 5 then Some(args[5]) else None;
    match ParseInterval(intervalArg)
    case None => None
    case Some(interval) =>
      var confidence := match confidenceArg case Some(c) => JsNumber(c) case None => None;
      Some(CasperEvent(Strip(args[0]), Strip(args[1]), Strip(args[2]),
        if hasAttribute then Some(Strip(args[3])) else None,
        interval.start, interval.end, NormalizeConfidence(confidence), atom))
  }

  /** An event atom whose interval has no comma is dropped, where the
      written `parseEventAtom` keeps it with no end (see
      `IntervalWithoutEnd`). */
  lemma EventWithoutEndDropped()
    ensures EventOfArguments(["a", "b", "c", "(5)", "2"], "event(a,b,c,(5),2)") == None
  {
    var raw := "(5)";
    assert StartsWith(raw, "(") by {
      assert raw[..1] == "(";
    }
    FiveRead();
  }

  /** `(5)` splits into the single piece `5`, which reads as 5. */
  lemma FiveRead()
    ensures SplitOn(WithoutParens("(5)"), ',') == ["5"]
    ensures JsNumber("5") == Some(5)
  {
    FiveWithoutParens();
    assert SplitOn("5", ',') == ["5"];
    FiveNumber();
  }

  /** `5` reads as the number 5. */
  lemma FiveNumber()
    ensures JsNumber("5") == Some(5)
  {
    assert Strip("5") == "5";
    assert DigitsValue("5") == 5 by {
      assert "5"[..0] == [];
    }
  }

  /** Removing the parentheses of `(5)` leaves `5`. */
  lemma FiveWithoutParens()
    ensures WithoutParens("(5)") == "5"
  {
    var raw := "(5)";
    assert raw[..1] == "(" && raw[..2] == "(5" && raw[..3] == raw;
    assert Seqs.Filter(raw[..1], NotParen) == [];
    assert Seqs.Filter(raw[..2], NotParen) == "5";
  }

  /** A text field the solver writes as it is: no comma, no bracket, no
      white space at either end. */
  predicate PlainField(x: string) {
    TopLevel.Plain(x) && Strip(x) == x
  }

  /** An event the solver can write: plain text fields and a confidence
      level. */
  predicate Writable(e: CasperEvent) {
    PlainField(e.id) && PlainField(e.eventType) && PlainField(e.patientId)
    && (e.attribute.Some? ==> PlainField(e.attribute.value))
    && e.confidence.Some? && 1 <= e.confidence.value <= 3
  }

  /** The arguments of the atom for `e`, in order: the attribute only when
      the event has one, then the interval and the confidence. */
  function Fields(e: CasperEvent): (r: seq<string>)
    requires e.confidence.Some?
    ensures |r| == if e.attribute.Some? then 6 else 5
  {
    [e.id, e.eventType, e.patientId]
    + (match e.attribute case Some(x) => [x] case None => [])
    + [IntervalText(e.start, e.end), IntText(e.confidence.value)]
  }

  /** The `event(...)` atom the solver writes for `e`. */
  function EventText(e: CasperEvent): string
    requires e.confidence.Some?
  {
    EventPrefix + Join(",", Fields(e)) + ")"
  }

  /** A written event atom reads back as the same event, with the atom as
      its raw text, whether or not it has an attribute. */
  lemma EventRoundTrip(e: CasperEvent)
    requires Writable(e)
    ensures ParseEventAtom(EventText(e)) == Some(e.(raw := EventText(e)))
  {
    var atom := EventText(e);
    EventArgumentsOfText(e);
    FieldsRead(e, atom);
  }

  /** The fields of a written atom read back as its event. */
  lemma FieldsRead(e: CasperEvent, atom: string)
    requires Writable(e)
    ensures EventOfArguments(Fields(e), atom) == Some(e.(raw := atom))
  {
    FieldValues(e);
    if e.attribute.Some? {
      FieldsReadWithAttribute(e, atom);
    } else {
      var fs := Fields(e);
      assert fs[3] == IntervalText(e.start, e.end) && fs[4] == IntText(e.confidence.value);
    }
  }

  /** The fields of a written atom with an attribute read back as its event. */
  lemma FieldsReadWithAttribute(e: CasperEvent, atom: string)
    requires Writable(e) && e.attribute.Some?
    ensures EventOfArguments(Fields(e), atom) == Some(e.(raw := atom))
  {
    var fs := Fields(e);
    var x := e.attribute.value;
    FieldValues(e);
    assert fs[3] == x && fs[4] == IntervalText(e.start, e.end) && fs[5] == IntText(e.confidence.value);
    PlainNotInterval(x);
    AttributeEventRead(fs, atom, Interval(e.start, e.end), e.confidence.value);
  }

  /** A plain field does not start with `(`, so it is never taken for an
      interval. */
  lemma PlainNotInterval(x: string)
    requires PlainField(x)
    ensures !StartsWith(x, "(")
  {
    if |x| >= 1 {
      assert x[0] !in ",()[]{}";
    }
  }

  /** Arguments whose fourth does not start with `(` are read with the
      fourth as the attribute, the fifth as the interval and the sixth as
      the confidence. */
  lemma AttributeEventRead(args: seq<string>, atom: string, interval: Interval, c: int)
    requires |args| >= 6 && !StartsWith(args[3], "(")
    requires ParseInterval(args[4]) == Some(interval) && JsNumber(args[5]) == Some(c)
    ensures EventOfArguments(args, atom) == Some(CasperEvent(Strip(args[0]), Strip(args[1]), Strip(args[2]),
      Some(Strip(args[3])), interval.start, interval.end, NormalizeConfidence(Some(c)), atom))
  {
  }

  /** What each field of a written atom reads as: the names strip to
      themselves, the interval reads as the event's interval and starts
      with `(`, and the confidence reads as its level. */
  lemma FieldValues(e: CasperEvent)
    requires Writable(e)
    ensures var fs := Fields(e);
      Strip(fs[0]) == e.id && Strip(fs[1]) == e.eventType && Strip(fs[2]) == e.patientId
    ensures ParseInterval(IntervalText(e.start, e.end)) == Some(Interval(e.start, e.end))
    ensures StartsWith(IntervalText(e.start, e.end), "(")
    ensures JsNumber(IntText(e.confidence.value)) == Some(e.confidence.value)
  {
    var c := e.confidence.value;
    FieldsWhole(e);
    IntervalRoundTrip(e.start, e.end);
    NumberShape(c);
    ParseIntText(c);
  }

  /** The top-level arguments of a written atom are its fields. */
  lemma EventArgumentsOfText(e: CasperEvent)
    requires Writable(e)
    ensures var atom := EventText(e);
      StartsWith(atom, EventPrefix) && EndsWith(atom, ")") && EventArguments(atom) == Fields(e)
  {
    var atom := EventText(e);
    var fs := Fields(e);
    var body := Join(",", fs);
    assert atom[..|EventPrefix|] == EventPrefix;
    assert atom[|atom| - 1..] == ")";
    assert Body(atom) == body;
    FieldsWhole(e);
    TopLevel.PiecesOfSimple(fs);
    TopLevel.ArgumentsOfPieces(TopLevel.Parens, body, fs);
    assert Seqs.Map(fs, Strip) == fs;
  }

  /** Every field of a written atom is kept whole by the argument split
      and left as it is by stripping. */
  lemma FieldsWhole(e: CasperEvent)
    requires Writable(e)
    ensures forall i :: 0 <= i < |Fields(e)| ==>
      TopLevel.Simple(Fields(e)[i]) && Strip(Fields(e)[i]) == Fields(e)[i]
    ensures Fields(e)[|Fields(e)| - 1] != []
  {
    var fs := Fields(e);
    var interval := IntervalText(e.start, e.end);
    var confidence := IntText(e.confidence.value);
    IntervalShape(e.start, e.end);
    NumberShape(e.confidence.value);
    forall i | 0 <= i < |fs| ensures TopLevel.Simple(fs[i]) && Strip(fs[i]) == fs[i] {
      if i == |fs| - 1 {
        assert fs[i] == confidence;
      } else if i == |fs| - 2 {
        assert fs[i] == interval;
      } else if i == 3 {
        assert fs[i] == e.attribute.value;
      }
    }
    assert fs[|fs| - 1] == confidence;
  }

  /** The interval argument is a group and has nothing to strip. */
  lemma IntervalShape(start: int, end: int)
    ensures var t := IntervalText(start, end);
      TopLevel.Group(t) && Strip(t) == t
  {
    var t := IntervalText(start, end);
    var a, b := IntText(start), IntText(end);
    IntTextPlain(start);
    IntTextPlain(end);
    NoParens(a);
    NoParens(b);
    assert t == "(" + (a + "," + b) + ")";
    assert t[1..|t| - 1] == a + "," + b;
    StripTrimmed(t);
  }

  /** A written integer is plain, not empty, and has nothing to strip. */
  lemma NumberShape(v: int)
    ensures var t := IntText(v);
      TopLevel.Plain(t) && t != [] && Strip(t) == t
  {
    IntTextPlain(v);
    StripTrimmed(IntText(v));
  }
}
