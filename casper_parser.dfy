/** The studio's reading of the solver's JSON report: one answer set per
    witness of the first call, holding the events that parse and a summary
    of them (how many, the earliest start, the latest end, and how many of
    each type). Times and statistics of the report are not modelled. */
module CasperParser {
  import opened Wrappers
  import opened Text
  import Seqs
  import AtomParser

  type CasperEvent = AtomParser.CasperEvent

  /** The summary of the events of one answer set. */
  datatype Summary = Summary(eventCount: nat, timeSpan: int, start: int, end: int, types: map<string, nat>)

  /** The earliest start of a non-empty list of events. */
  function MinStart(events: seq<CasperEvent>): (r: int)
    requires events != []
    ensures forall e :: e in events ==> r <= e.start
    ensures exists e :: e in events && e.start == r
  {
    var last := events[|events| - 1];
    if |events| == 1 then last.start
    else
      var m := MinStart(events[..|events| - 1]);
      assert forall e :: e in events ==> e in events[..|events| - 1] || e == last;
      if last.start < m then last.start else m
  }

  /** The latest end of a non-empty list of events. */
  function MaxEnd(events: seq<CasperEvent>): (r: int)
    requires events != []
    ensures forall e :: e in events ==> e.end <= r
    ensures exists e :: e in events && e.end == r
  {
    var last := events[|events| - 1];
    if |events| == 1 then last.end
    else
      var m := MaxEnd(events[..|events| - 1]);
      assert forall e :: e in events ==> e in events[..|events| - 1] || e == last;
      if last.end > m then last.end else m
  }

  /** The per-type counts the `reduce` builds, one event at a time. */
  function TypeCounts(events: seq<CasperEvent>): map<string, nat> {
    if events == [] then map[]
    else
      var m := TypeCounts(events[..|events| - 1]);
      var t := events[|events| - 1].eventType;
      m[t := (if t in m then m[t] else 0) + 1]
  }

  /** Whether an event has the given type, as a value. */
  function OfType(t: string): CasperEvent -> bool {
    (e: CasperEvent) => e.eventType == t
  }

  /** How many events have type `t`. */
  function CountOf(events: seq<CasperEvent>, t: string): nat {
    |Seqs.Filter(events, OfType(t))|
  }

  /** `buildSummary`. */
  function BuildSummary(events: seq<CasperEvent>): (r: Summary)
    ensures events == [] ==> r == Summary(0, 0, 0, 0, map[])
    ensures r.eventCount == |events| && r.timeSpan == r.end - r.start
    ensures events != [] ==>
      (forall e :: e in events ==> r.start <= e.start && e.end <= r.end)
      && (exists e :: e in events && e.start == r.start)
      && (exists e :: e in events && e.end == r.end)
  {
    if events == [] then Summary(0, 0, 0, 0, map[])
    else
      var start := MinStart(events);
      var end := MaxEnd(events);
      Summary(|events|, end - start, start, end, TypeCounts(events))
  }

  /** A type has a count exactly when some event has it, and the count is
      the number of events of that type. */
  lemma {:induction false} TypeCountsMeaning(events: seq<CasperEvent>, t: string)
    ensures t in TypeCounts(events) <==> exists e :: e in events && e.eventType == t
    ensures t in TypeCounts(events) ==> TypeCounts(events)[t] == CountOf(events, t)
    ensures t !in TypeCounts(events) ==> CountOf(events, t) == 0
  {
    if events != [] {
      var init, last := events[..|events| - 1], events[|events| - 1];
      TypeCountsMeaning(init, t);
      assert events == init + [last];
      assert forall e :: e in events <==> e in init || e == last;
    }
  }

  /** The sum of the counts of a map. */
  ghost function Total(m: map<string, nat>): nat
    decreases |m.Keys|
  {
    if m == map[] then 0
    else
      var k :| k in m;
      m[k] + Total(m - {k})
  }

  /** The sum does not depend on the key taken first. */
  lemma {:induction false} TotalWithout(m: map<string, nat>, k: string)
    requires k in m
    ensures Total(m) == m[k] + Total(m - {k})
    decreases |m.Keys|
  {
    var j :| j in m && Total(m) == m[j] + Total(m - {j});
    if j != k {
      var mj, mk := m - {j}, m - {k};
      assert |mj.Keys| < |m.Keys| by {
        assert mj.Keys < m.Keys;
      }
      assert |mk.Keys| < |m.Keys| by {
        assert mk.Keys < m.Keys;
      }
      TotalWithout(mj, k);
      TotalWithout(mk, j);
      assert mj - {k} == mk - {j};
    }
  }

  /** The per-type counts add up to the number of events. */
  lemma {:induction false} TypeCountsTotal(events: seq<CasperEvent>)
    ensures Total(TypeCounts(events)) == |events|
  {
    if events != [] {
      var init := events[..|events| - 1];
      var m := TypeCounts(init);
      var t := events[|events| - 1].eventType;
      var m2 := TypeCounts(events);
      TypeCountsTotal(init);
      TotalWithout(m2, t);
      assert m2 - {t} == m - {t};
      if t in m {
        TotalWithout(m, t);
      } else {
        assert m - {t} == m;
      }
    }
  }

  /** The summary's counts cover every event once. */
  lemma SummaryCounts(events: seq<CasperEvent>)
    ensures Total(BuildSummary(events).types) == BuildSummary(events).eventCount
  {
    TypeCountsTotal(events);
  }

  /** One solver witness; its time is not modelled. */
  datatype Witness = Witness(value: seq<string>)

  /** One solver call; `witnesses` is absent when the report has none. */
  datatype Call = Call(witnesses: Option<seq<Witness>>)

  datatype Models = Models(number: int, more: string)

  /** The solver's JSON report, without its times and statistics. */
  datatype RawCasperJson = RawCasperJson(
    solver: string, input: seq<string>, call: Option<seq<Call>>, result: string,
    models: Models, threads: Option<int>, winner: Option<int>)

  datatype CasperMode = Naive | Consistent | Preferred | Cautious

  datatype Metadata = Metadata(solver: string, result: string, models: Models, threads: Option<int>, winner: Option<int>)

  datatype AnswerSet = AnswerSet(id: string, witnessIndex: nat, events: seq<CasperEvent>, summary: Summary)

  datatype ParseResult = ParseResult(mode: CasperMode, metadata: Metadata, answerSets: seq<AnswerSet>)

  /** `json.Call?.[0]?.Witnesses ?? []`. */
  function Witnesses(json: RawCasperJson): seq<Witness> {
    match json.call
    case None => []
    case Some(calls) =>
      if calls == [] then []
      else match calls[0].witnesses case Some(ws) => ws case None => []
  }

  /** The events of a witness: the atoms that parse, in order. */
  function WitnessEvents(w: Witness): seq<CasperEvent> {
    Seqs.FilterMap(w.value, AtomParser.ParseEventAtom)
  }

  /** `witness-<n>` for the witness at `index`, counted from one. */
  function AnswerSetId(index: nat): string {
    "witness-" + Decimal(index + 1)
  }

  /** The answer set read from the witness at `index`. */
  function AnswerSetOf(w: Witness, index: nat): AnswerSet {
    var events := WitnessEvents(w);
    AnswerSet(AnswerSetId(index), index, events, BuildSummary(events))
  }

  /** `parseCasperJson`: one answer set per witness of the first call, in
      order, and the report's metadata as it is. */
  function ParseCasperJson(mode: CasperMode, json: RawCasperJson): (r: ParseResult)
    ensures |r.answerSets| == |Witnesses(json)|
    ensures forall i :: 0 <= i < |r.answerSets| ==>
      r.answerSets[i].witnessIndex == i && r.answerSets[i].id == AnswerSetId(i)
      && r.answerSets[i].events == WitnessEvents(Witnesses(json)[i])
      && r.answerSets[i].summary == BuildSummary(r.answerSets[i].events)
    ensures r.mode == mode && r.metadata.solver == json.solver && r.metadata.result == json.result
  {
    var ws := Witnesses(json);
    ParseResult(mode, Metadata(json.solver, json.result, json.models, json.threads, json.winner),
      seq(|ws|, i requires 0 <= i < |ws| => AnswerSetOf(ws[i], i)))
  }

  /** A report without calls, or whose first call has no witnesses, gives
      no answer sets. */
  lemma NoWitnesses(mode: CasperMode, json: RawCasperJson)
    requires json.call.None? || json.call.value == [] || json.call.value[0].witnesses.None?
      || json.call.value[0].witnesses == Some([])
    ensures ParseCasperJson(mode, json).answerSets == []
  {
  }

  /** Answer set ids differ between witnesses. */
  lemma AnswerSetIdsDistinct(i: nat, j: nat)
    requires i != j
    ensures AnswerSetId(i) != AnswerSetId(j)
  {
    var prefix := "witness-";
    if AnswerSetId(i) == AnswerSetId(j) {
      assert Decimal(i + 1) == AnswerSetId(i)[|prefix|..];
      assert Decimal(j + 1) == AnswerSetId(j)[|prefix|..];
      DecimalRoundTrip(i + 1);
      DecimalRoundTrip(j + 1);
    }
  }

  /** An event belongs to an answer set exactly when one of the witness's
      atoms parses to it, and then its raw text is that atom. */
  lemma WitnessEventsMeaning(w: Witness, e: CasperEvent)
    ensures e in WitnessEvents(w) <==> exists i :: 0 <= i < |w.value| && AtomParser.ParseEventAtom(w.value[i]) == Some(e)
    ensures e in WitnessEvents(w) ==> e.raw in w.value
  {
    Seqs.FilterMapMembers(w.value, AtomParser.ParseEventAtom, e);
  }

  /** The raw texts of the events are the witness's atoms that parse, in
      order. */
  lemma {:induction false} WitnessEventsRaw(atoms: seq<string>)
    ensures Seqs.Map(Seqs.FilterMap(atoms, AtomParser.ParseEventAtom), RawOf)
      == Seqs.Filter(atoms, Parses)
  {
    if atoms != [] {
      var init, last := atoms[..|atoms| - 1], atoms[|atoms| - 1];
      WitnessEventsRaw(init);
      var events := Seqs.FilterMap(init, AtomParser.ParseEventAtom);
      match AtomParser.ParseEventAtom(last)
      case Some(e) =>
        Seqs.MapSnoc(events, e, RawOf);
      case None =>
        assert Seqs.FilterMap(atoms, AtomParser.ParseEventAtom) == events;
    }
  }

  function RawOf(e: CasperEvent): string {
    e.raw
  }

  predicate Parses(atom: string) {
    AtomParser.ParseEventAtom(atom).Some?
  }
}
