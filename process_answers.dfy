/** The meta-event pass over a repaired report: for every witness, the
    solver is run on the base programs, the meta-event program and the
    witness's simple events, and the witness's value becomes the first
    answer of that run; the report's input list is then updated. The solver
    run is a parameter of the model (an oracle), times are left out, and
    the witnesses are processed one after the other, which gives the order
    the thread pool's `map` returns. */
module ProcessAnswers {
  import opened Wrappers
  import opened Text
  import Seqs

  /** What the solver is asked to do: its command line, without the
      temporary file's name, and the facts written to that file. */
  datatype Invocation = Invocation(args: seq<string>, facts: string)

  /** One witness of the solver's JSON output. */
  datatype OutWitness = OutWitness(value: Option<seq<string>>)

  /** One call of the solver's JSON output. */
  datatype OutCall = OutCall(witnesses: Option<seq<OutWitness>>)

  /** The part of the solver's JSON output that is read. */
  datatype SolverOutput = SolverOutput(call: Option<seq<OutCall>>)

  /** How a solver run ends: an exception on the way (the solver could not
      be started, say), or an exit code and the output read as JSON (`None`
      when it is not JSON). */
  datatype Outcome = Raised | Exited(code: int, output: Option<SolverOutput>)

  /** The exit codes that count as a finished run. */
  predicate Succeeded(code: int) {
    code == 0 || code == 10 || code == 30
  }

  function WithPeriod(event: string): string {
    event + "."
  }

  /** The facts file: every event followed by a period, one per line. */
  function FactsText(events: seq<string>): string {
    Join("\n", Seqs.Map(events, WithPeriod))
  }

  /** The command line for one run. */
  function Command(baseFiles: seq<string>, metaEvent: string, unit: string): seq<string> {
    ["clingo", "--outf=2", "-c unit=" + unit] + baseFiles + [metaEvent]
  }

  /** The answer read from a finished run's output: the first witness's
      value, or nothing when there is no witness. A report whose call list
      is present but empty cannot be indexed, which the source's exception
      handler turns into nothing as well. */
  function FirstValue(output: SolverOutput): seq<string> {
    var calls := match output.call case Some(cs) => cs case None => [OutCall(None)];
    if calls == [] then []
    else
      var witnesses := match calls[0].witnesses case Some(ws) => ws case None => [];
      if witnesses == [] then []
      else match witnesses[0].value case Some(v) => v case None => []
  }

  /** `compute_meta_events`, without its times: the first answer of the
      run, or nothing when the run raised, ended with another exit code, or
      printed something that is not JSON. A run that ended with 0, 10 or 30
      and printed a report with a witness gives that witness's value, and
      an answer comes back from no other run; an exception or any other
      code, 20 included, gives nothing. */
  function ComputeMetaEvents(baseFiles: seq<string>, metaEvent: string, simpleEvents: seq<string>,
                             unit: string, run: Invocation -> Outcome): (r: seq<string>)
    ensures var outcome := run(Invocation(Command(baseFiles, metaEvent, unit), FactsText(simpleEvents)));
      (outcome.Raised? ==> r == [])
      && (outcome.Exited? && !Succeeded(outcome.code) ==> r == [])
      && (r != [] ==>
            outcome.Exited? && Succeeded(outcome.code) && outcome.output.Some?
            && ValueOfFirstWitness(outcome.output.value, r))
      && (forall v ::
            (outcome.Exited? && Succeeded(outcome.code) && outcome.output.Some?
             && ValueOfFirstWitness(outcome.output.value, v)) ==> r == v)
  {
    match run(Invocation(Command(baseFiles, metaEvent, unit), FactsText(simpleEvents)))
    case Raised => []
    case Exited(code, output) =>
      if !Succeeded(code) then []
      else match output case Some(o) => FirstValue(o) case None => []
  }

  /** `r` is the value of the first witness of the first call. */
  predicate ValueOfFirstWitness(output: SolverOutput, r: seq<string>) {
    output.call.Some? && output.call.value != []
    && output.call.value[0].witnesses.Some? && output.call.value[0].witnesses.value != []
    && output.call.value[0].witnesses.value[0].value == Some(r)
  }

  /** The first witness's value is read whenever there is one; without a
      witness the answer is empty. */
  lemma FirstValueMeaning(output: SolverOutput)
    ensures forall r :: ValueOfFirstWitness(output, r) ==> FirstValue(output) == r
    ensures FirstValue(output) != [] ==> ValueOfFirstWitness(output, FirstValue(output))
  {
  }

  /** The facts file reads back, line by line, as the events with their
      periods, when no event spans two lines. */
  lemma FactsLines(events: seq<string>)
    requires events != [] && forall i :: 0 <= i < |events| ==> '\n' !in events[i]
    ensures SplitOn(FactsText(events), '\n') == Seqs.Map(events, WithPeriod)
    ensures |SplitOn(FactsText(events), '\n')| == |events|
  {
    var lines := Seqs.Map(events, WithPeriod);
    forall i | 0 <= i < |lines| ensures '\n' !in lines[i] {
      assert lines[i] == events[i] + ".";
    }
    assert "\n" == ['\n'];
    SplitOnJoin(lines, '\n');
  }

  /** Whether an `Input` entry survives: it does not name `parameters3.lp`. */
  predicate KeepInput(entry: string) {
    !Contains(entry, "parameters3.lp")
  }

  /** The fields of the report that the pass changes: each witness's value,
      in the order of the first call's witnesses, and the input list. */
  class Report {
    var values: seq<seq<string>>
    var input: seq<string>

    constructor(values: seq<seq<string>>, input: seq<string>)
      ensures this.values == values && this.input == input
    {
      this.values := values;
      this.input := input;
    }

    /** `process_witness` for the witness at `i`: its value is replaced by
        the answer computed from its own events. */
    method ProcessWitness(i: nat, baseFiles: seq<string>, metaEvent: string, unit: string,
                          run: Invocation -> Outcome)
      requires i < |values|
      modifies this
      ensures values == old(values)[i := ComputeMetaEvents(baseFiles, metaEvent, old(values)[i], unit, run)]
      ensures input == old(input)
    {
      var result := ComputeMetaEvents(baseFiles, metaEvent, values[i], unit, run);
      values := values[i := if result != [] then result else []];
    }

    /** The pool's `map` over the witnesses, one after the other: every
        witness keeps its place and gets the answer computed from its own
        events. */
    method ProcessWitnesses(baseFiles: seq<string>, metaEvent: string, unit: string,
                            run: Invocation -> Outcome)
      modifies this
      ensures values == Seqs.Map(old(values), Recompute(baseFiles, metaEvent, unit, run))
      ensures input == old(input)
    {
      ghost var before := values;
      for i := 0 to |values|
        invariant |values| == |before| && input == old(input)
        invariant forall j :: 0 <= j < i ==> values[j] == Recompute(baseFiles, metaEvent, unit, run)(before[j])
        invariant forall j :: i <= j < |values| ==> values[j] == before[j]
      {
        ProcessWitness(i, baseFiles, metaEvent, unit, run);
      }
    }

    /** The `Input` rewrite: entries naming `parameters3.lp` are dropped, the
        others keep their order, and the meta-event program comes last. */
    method UpdateInput(metaEvent: string)
      modifies this
      ensures input == Seqs.Filter(old(input), KeepInput) + [metaEvent]
      ensures values == old(values)
    {
      input := Seqs.Filter(input, KeepInput) + [metaEvent];
    }

    /** `main` once the report is read: the base programs are the words of
        the first argument; the witnesses are processed, then the input
        list is updated. */
    method Rewrite(baseArgument: string, metaEvent: string, unit: string, run: Invocation -> Outcome)
      modifies this
      ensures values == Seqs.Map(old(values), Recompute(Words(baseArgument), metaEvent, unit, run))
      ensures input == Seqs.Filter(old(input), KeepInput) + [metaEvent]
    {
      var baseFiles := Words(baseArgument);
      ProcessWitnesses(baseFiles, metaEvent, unit, run);
      UpdateInput(metaEvent);
    }
  }

  /** The answer for one witness's events, as a value. */
  function Recompute(baseFiles: seq<string>, metaEvent: string, unit: string, run: Invocation -> Outcome)
    : seq<string> -> seq<string>
  {
    events => ComputeMetaEvents(baseFiles, metaEvent, events, unit, run)
  }

  /** The rewritten input list holds the meta-event program last, and
      before it exactly the old entries that do not name `parameters3.lp`,
      in their order. */
  lemma InputRewrite(input: seq<string>, metaEvent: string, entry: string)
    ensures var r := Seqs.Filter(input, KeepInput) + [metaEvent];
      r[|r| - 1] == metaEvent
      && Seqs.IsSubsequence(r[..|r| - 1], input)
      && (entry in r[..|r| - 1] <==> entry in input && KeepInput(entry))
  {
    var kept := Seqs.Filter(input, KeepInput);
    var r := kept + [metaEvent];
    assert r[..|r| - 1] == kept;
    Seqs.FilterSubsequence(input, KeepInput);
    Seqs.FilterMembers(input, KeepInput, entry);
  }
}
