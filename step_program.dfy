/** The step-program generator: observation facts `obs(..., T).` are grouped
    by their timestamp `T` into `#program step(tT).` blocks, each opened by
    the fact `step_time(T, T).`, after the lines that are not observations.
    Timestamps come in ascending numeric order, or in order of first
    appearance when asked to preserve the order. */
module StepProgram {
  import opened Wrappers
  import opened Text
  import Seqs
  import Sorting

  /** `strip_inline_comment`: the text before the first `%`, stripped. */
  function StripInlineComment(line: string): (r: string)
    ensures '%' !in r
    ensures r == [] || (!IsSpace(r[0]) && !IsSpace(r[|r| - 1]))
  {
    StripInside(Before(line, '%'));
    Strip(Before(line, '%'))
  }

  /** What follows the first `%` is dropped; the code in front of it is
      stripped. */
  lemma CommentDropped(code: string, comment: string)
    requires '%' !in code
    ensures StripInlineComment(code + "%" + comment) == Strip(code)
  {
    var s := code + "%" + comment;
    assert s[..|code|] == code;
    IndexOfIs(s, '%', |code|);
  }

  /** The lines read as observations; every other line is a header line. */
  predicate IsObsLine(line: string) {
    StartsWith(StripInlineComment(line), "obs(")
  }

  /** A timestamp: its integer value and its text as written. */
  datatype Timestamp = Timestamp(value: int, text: string)

  /** The two errors `extract_timestamp` raises, with the 1-based line
      number. Its third check, for an empty argument list, cannot fail:
      splitting always yields at least one piece. */
  datatype StepError =
    | NotAnObsFact(lineNo: int, fact: string)
    | NotAnInteger(lineNo: int, text: string)

  /** `extract_timestamp`: the stripped text after the last comma of an
      `obs(...).` fact, which must read as an integer. */
  function ExtractTimestamp(fact: string, lineNo: int): (r: Result<Timestamp, StepError>)
    ensures (r.Failure? && r.error.NotAnObsFact?) <==> !StartsWith(fact, "obs(") || !EndsWith(fact, ").")
    ensures r.Success? ==> ParseInt(r.value.text) == Some(r.value.value) && ',' !in r.value.text
    ensures r.Success? ==> r.value.text == [] || (!IsSpace(r.value.text[0]) && !IsSpace(r.value.text[|r.value.text| - 1]))
  {
    if !StartsWith(fact, "obs(") || !EndsWith(fact, ").") then Failure(NotAnObsFact(lineNo, fact))
    else
      assert fact[2] == 's' && fact[3] == '(' && fact[|fact| - 2] == ')';
      var piece := LastPiece(fact[4..|fact| - 2], ',');
      StripInside(piece);
      var text := Strip(piece);
      match ParseInt(text)
      case Some(v) => Success(Timestamp(v, text))
      case None => Failure(NotAnInteger(lineNo, text))
  }

  /** An observation written `obs(<arguments>, <T>).` has the timestamp `T`. */
  lemma ExtractWritten(args: string, v: int, lineNo: int)
    ensures ExtractTimestamp("obs(" + args + ", " + IntText(v) + ").", lineNo)
      == Success(Timestamp(v, IntText(v)))
  {
    var t := IntText(v);
    var fact := "obs(" + args + ", " + t + ").";
    assert fact[..4] == "obs(";
    assert fact[|fact| - 2..] == ").";
    IntTextPlain(v);
    var payload := fact[4..|fact| - 2];
    assert payload == args + [','] + (" " + t);
    LastPieceAfter(args, " " + t, ',');
    assert LStrip(" " + t) == t by {
      assert (" " + t)[1..] == t;
    }
    ParseIntText(v);
  }

  /** An observation line: the line with a line break ensured, and its
      timestamp. */
  datatype Entry = Entry(line: string, ts: Timestamp)

  /** The observations of `lines` in order, or the error of the first line
      that starts like an observation but is not a well-formed one. */
  function Observations(lines: seq<string>): Result<seq<Entry>, StepError> {
    if lines == [] then Success([])
    else
      var n := |lines|;
      match Observations(lines[..n - 1])
      case Failure(e) => Failure(e)
      case Success(es) =>
        var fact := StripInlineComment(lines[n - 1]);
        if !StartsWith(fact, "obs(") then Success(es)
        else
          match ExtractTimestamp(fact, n)
          case Failure(e) => Failure(e)
          case Success(ts) => Success(es + [Entry(WithNewline(lines[n - 1]), ts)])
  }

  /** One more line of a prefix. */
  lemma ObservationsStep(lines: seq<string>, i: nat)
    requires i < |lines|
    ensures var fact := StripInlineComment(lines[i]);
      Observations(lines[..i + 1]) ==
        match Observations(lines[..i])
        case Failure(e) => Failure(e)
        case Success(es) =>
          if !StartsWith(fact, "obs(") then Success(es)
          else
            match ExtractTimestamp(fact, i + 1)
            case Failure(e) => Failure(e)
            case Success(ts) => Success(es + [Entry(WithNewline(lines[i]), ts)])
  {
    assert lines[..i + 1][..i] == lines[..i];
  }

  /** Once a line fails, the whole file fails with that line's error. */
  lemma {:induction false} ObservationsFailureStays(lines: seq<string>, i: nat)
    requires i <= |lines| && Observations(lines[..i]).Failure?
    ensures Observations(lines) == Observations(lines[..i])
    decreases |lines| - i
  {
    if i < |lines| {
      ObservationsStep(lines, i);
      ObservationsFailureStays(lines, i + 1);
    } else {
      assert lines[..i] == lines;
    }
  }

  /** Line `lineNo` is no observation, or a well-formed one. */
  predicate LineOk(line: string, lineNo: int) {
    IsObsLine(line) ==> ExtractTimestamp(StripInlineComment(line), lineNo).Success?
  }

  /** The file is read without error exactly when every observation line
      is a well-formed fact with an integer timestamp. */
  lemma {:induction false} ObservationsSucceed(lines: seq<string>)
    ensures Observations(lines).Success? <==> Seqs.AllNumbered(lines, LineOk)
  {
    if lines != [] {
      ObservationsSucceed(lines[..|lines| - 1]);
      Seqs.AllNumberedSnoc(lines, LineOk);
    }
  }

  function LineOf(e: Entry): string {
    e.line
  }

  /** The entries are the observation lines, in order, each with a line
      break ensured. */
  lemma {:induction false} ObservationsLines(lines: seq<string>)
    requires Observations(lines).Success?
    ensures Seqs.Map(Observations(lines).value, LineOf) == Seqs.Map(Seqs.Filter(lines, IsObsLine), WithNewline)
  {
    if lines != [] {
      var n := |lines|;
      var init := lines[..n - 1];
      assert lines == init + [lines[n - 1]];
      ObservationsLines(init);
      var es := Observations(init).value;
      if IsObsLine(lines[n - 1]) {
        var e := Entry(WithNewline(lines[n - 1]), ExtractTimestamp(StripInlineComment(lines[n - 1]), n).value);
        Seqs.MapSnoc(es, e, LineOf);
        Seqs.MapSnoc(Seqs.Filter(init, IsObsLine), lines[n - 1], WithNewline);
      }
    }
  }

  /** The header lines of `main`: the lines that are not observations,
      each with a line break ensured. */
  function HeaderLines(lines: seq<string>): seq<string> {
    Seqs.Map(Seqs.Filter(lines, IsHeaderLine), WithNewline)
  }

  predicate IsHeaderLine(line: string) {
    !IsObsLine(line)
  }

  function TextOf(e: Entry): string {
    e.ts.text
  }

  /** The timestamp texts in order of first appearance. */
  function Keys(es: seq<Entry>): seq<string> {
    Seqs.Dedup(Seqs.Map(es, TextOf))
  }

  /** The entry's line when its timestamp is written `k`. */
  function LineIfAt(k: string): Entry -> Option<string> {
    (e: Entry) => if e.ts.text == k then Some(e.line) else None
  }

  /** The lines whose timestamp is written `k`, in input order. */
  function Bucket(es: seq<Entry>, k: string): seq<string> {
    Seqs.FilterMap(es, LineIfAt(k))
  }

  /** The integer a timestamp text reads as; `order_helper` holds this value
      for every key, because a key's value is parsed from the key itself. */
  function TimestampValue(text: string): int {
    match ParseInt(text)
    case Some(v) => v
    case None => 0
  }

  /** The order of the blocks: first appearance, or a stable sort by value. */
  function Order(es: seq<Entry>, preserve: bool): seq<string> {
    if preserve then Keys(es) else Sorting.SortBy(Keys(es), TimestampValue)
  }

  /** Each key with its bucket, in the order given. */
  function Pairs(ks: seq<string>, es: seq<Entry>): (r: seq<(string, seq<string>)>)
    ensures |r| == |ks|
  {
    seq(|ks|, j requires 0 <= j < |ks| => (ks[j], Bucket(es, ks[j])))
  }

  /** What `group_obs_by_timestamp` returns: the ordered dictionary from
      timestamp text to lines, as its list of items. */
  function GroupObs(lines: seq<string>, preserve: bool): Result<seq<(string, seq<string>)>, StepError> {
    match Observations(lines)
    case Failure(e) => Failure(e)
    case Success(es) => Success(Pairs(Order(es, preserve), es))
  }

  /** One more entry: a new key comes last, a known one changes nothing. */
  lemma KeysStep(es: seq<Entry>, e: Entry)
    ensures Keys(es + [e]) == if e.ts.text in Keys(es) then Keys(es) else Keys(es) + [e.ts.text]
  {
    var ts := Seqs.Map(es + [e], TextOf);
    Seqs.MapSnoc(es, e, TextOf);
    assert ts[..|ts| - 1] == Seqs.Map(es, TextOf);
  }

  /** One more entry joins the end of its own bucket only. */
  lemma BucketStep(es: seq<Entry>, e: Entry, k: string)
    ensures Bucket(es + [e], k) == Bucket(es, k) + if e.ts.text == k then [e.line] else []
  {
    assert (es + [e])[..|es|] == es;
  }

  /** A timestamp no entry has has an empty bucket. */
  lemma {:induction false} BucketEmpty(es: seq<Entry>, k: string)
    requires k !in Keys(es)
    ensures Bucket(es, k) == []
  {
    if es != [] {
      var init := es[..|es| - 1];
      Seqs.MapSnoc(init, es[|es| - 1], TextOf);
      assert es == init + [es[|es| - 1]];
      BucketEmpty(init, k);
    }
  }

  /** What the first loop of `group_obs_by_timestamp` holds after the
      entries `es`: the keys in order of first appearance and each key's
      bucket. */
  ghost predicate Bucketed(keys: seq<string>, buckets: map<string, seq<string>>, es: seq<Entry>) {
    keys == Keys(es)
    && (forall k :: k in buckets <==> k in keys)
    && (forall k :: k in buckets ==> buckets[k] == Bucket(es, k))
  }

  /** `order_helper` holds the value of every key. */
  ghost predicate Valued(orderHelper: map<string, int>, keys: seq<string>) {
    (forall k :: k in orderHelper <==> k in keys)
    && (forall k :: k in orderHelper ==> orderHelper[k] == TimestampValue(k))
  }

  /** One more observation: its line joins the end of its own bucket,
      which is created empty when the key is new. */
  lemma BucketsStep(keys: seq<string>, buckets: map<string, seq<string>>, es: seq<Entry>, e: Entry)
    requires Bucketed(keys, buckets, es)
    ensures var t := e.ts.text;
      var after := buckets[t := (if t in buckets then buckets[t] else []) + [e.line]];
      forall k :: k in after ==> after[k] == Bucket(es + [e], k)
  {
    var t := e.ts.text;
    var after := buckets[t := (if t in buckets then buckets[t] else []) + [e.line]];
    if t !in buckets {
      BucketEmpty(es, t);
    }
    forall k | k in after ensures after[k] == Bucket(es + [e], k) {
      BucketStep(es, e, k);
    }
  }

  /** One more observation: a new key is added at the end. */
  lemma KeysGrow(keys: seq<string>, es: seq<Entry>, e: Entry, known: bool)
    requires keys == Keys(es) && (known <==> e.ts.text in keys)
    ensures var t := e.ts.text;
      var keys' := if known then keys else keys + [t];
      keys' == Keys(es + [e]) && forall k :: k in keys' <==> k in keys || k == t
  {
    KeysStep(es, e);
  }

  /** One more observation: `setdefault(...).append(...)` on the buckets. */
  lemma BucketedStep(keys: seq<string>, buckets: map<string, seq<string>>, es: seq<Entry>, e: Entry,
                     keys': seq<string>, buckets': map<string, seq<string>>)
    requires Bucketed(keys, buckets, es)
    requires var t := e.ts.text;
      && keys' == (if t in buckets then keys else keys + [t])
      && buckets' == buckets[t := (if t in buckets then buckets[t] else []) + [e.line]]
    ensures Bucketed(keys', buckets', es + [e])
    ensures forall k :: k in keys' <==> k in keys || k == e.ts.text
  {
    BucketsStep(keys, buckets, es, e);
    KeysGrow(keys, es, e, e.ts.text in buckets);
  }

  /** One more observation: `setdefault` on the values. */
  lemma ValuedStep(orderHelper: map<string, int>, keys: seq<string>, t: string, v: int,
                   orderHelper': map<string, int>, keys': seq<string>)
    requires Valued(orderHelper, keys) && ParseInt(t) == Some(v)
    requires forall k :: k in keys' <==> k in keys || k == t
    requires orderHelper' == if t in orderHelper then orderHelper else orderHelper[t := v]
    ensures Valued(orderHelper', keys')
  {
  }

  /** `group_obs_by_timestamp`: one pass filling the buckets and the value
      of every timestamp, then the keys in the requested order. */
  method GroupObsByTimestamp(lines: seq<string>, preserve: bool) returns (r: Result<seq<(string, seq<string>)>, StepError>)
    ensures r == GroupObs(lines, preserve)
  {
    var keys: seq<string> := [];
    var buckets: map<string, seq<string>> := map[];
    var orderHelper: map<string, int> := map[];
    ghost var es: seq<Entry> := [];
    for i := 0 to |lines|
      invariant Observations(lines[..i]) == Success(es)
      invariant Bucketed(keys, buckets, es)
      invariant Valued(orderHelper, keys)
    {
      var line := lines[i];
      var fact := StripInlineComment(line);
      ObservationsStep(lines, i);
      if fact == [] || !StartsWith(fact, "obs(") {
        continue;
      }
      var extracted := ExtractTimestamp(fact, i + 1);
      if extracted.Failure? {
        ObservationsFailureStays(lines, i + 1);
        return Failure(extracted.error);
      }
      var ts := extracted.value;
      var entry := Entry(WithNewline(line), ts);
      ghost var (keys0, buckets0, orderHelper0) := (keys, buckets, orderHelper);
      if ts.text !in buckets {
        keys := keys + [ts.text];
      }
      buckets := buckets[ts.text := (if ts.text in buckets then buckets[ts.text] else []) + [entry.line]];
      if ts.text !in orderHelper {
        orderHelper := orderHelper[ts.text := ts.value];
      }
      BucketedStep(keys0, buckets0, es, entry, keys, buckets);
      ValuedStep(orderHelper0, keys0, ts.text, ts.value, orderHelper, keys);
      es := es + [entry];
    }
    assert lines[..|lines|] == lines;
    var order := keys;
    if !preserve {
      order := Sorting.SortBy(keys, TimestampValue);
      SortedKeys(keys);
    }
    var items := Collect(order, buckets, es);
    return Success(items);
  }

  /** Sorting the keys keeps exactly the keys. */
  lemma SortedKeys(keys: seq<string>)
    ensures forall k :: k in Sorting.SortBy(keys, TimestampValue) <==> k in keys
  {
    Sorting.SortByPermutation(keys, TimestampValue);
    assert forall k :: k in Sorting.SortBy(keys, TimestampValue) <==> k in multiset(keys);
  }

  /** The last loop of `group_obs_by_timestamp`: the buckets copied in the
      requested order. */
  method Collect(order: seq<string>, buckets: map<string, seq<string>>, ghost es: seq<Entry>) returns (items: seq<(string, seq<string>)>)
    requires forall k :: k in order ==> k in buckets && buckets[k] == Bucket(es, k)
    ensures items == Pairs(order, es)
  {
    items := [];
    for j := 0 to |order|
      invariant items == Pairs(order[..j], es)
    {
      items := items + [(order[j], buckets[order[j]])];
    }
    assert order[..|order|] == order;
  }

  /** The lines of the buckets, one bucket after the other. */
  function AllLines(g: seq<(string, seq<string>)>): seq<string> {
    if g == [] then [] else AllLines(g[..|g| - 1]) + g[|g| - 1].1
  }

  /** One more entry adds its line to the bucket of its key, if listed. */
  lemma {:induction false} AllLinesStep(ks: seq<string>, es: seq<Entry>, e: Entry)
    requires Seqs.NoDuplicates(ks)
    ensures multiset(AllLines(Pairs(ks, es + [e])))
      == multiset(AllLines(Pairs(ks, es))) + if e.ts.text in ks then multiset{e.line} else multiset{}
  {
    if ks != [] {
      var n := |ks|;
      var init, last := ks[..n - 1], ks[n - 1];
      assert ks == init + [last];
      var p1, p0 := Pairs(ks, es + [e]), Pairs(ks, es);
      assert p1[..n - 1] == Pairs(init, es + [e]);
      assert p0[..n - 1] == Pairs(init, es);
      assert AllLines(p1) == AllLines(Pairs(init, es + [e])) + Bucket(es + [e], last);
      assert AllLines(p0) == AllLines(Pairs(init, es)) + Bucket(es, last);
      AllLinesStep(init, es, e);
      BucketStep(es, e, last);
      if e.ts.text == last {
        assert e.ts.text !in init;
      }
    }
  }

  /** Every observation lands in exactly one bucket: over keys listed once
      each and covering all timestamps, the buckets hold exactly the
      observation lines. */
  lemma {:induction false} AllLinesPartition(ks: seq<string>, es: seq<Entry>)
    requires Seqs.NoDuplicates(ks)
    requires forall i :: 0 <= i < |es| ==> es[i].ts.text in ks
    ensures multiset(AllLines(Pairs(ks, es))) == multiset(Seqs.Map(es, LineOf))
  {
    if es == [] {
      assert forall j :: 0 <= j < |ks| ==> Bucket(es, ks[j]) == [];
      EmptyBuckets(Pairs(ks, es));
    } else {
      var n := |es|;
      var init := es[..n - 1];
      assert es == init + [es[n - 1]];
      AllLinesPartition(ks, init);
      AllLinesStep(ks, init, es[n - 1]);
      Seqs.MapSnoc(init, es[n - 1], LineOf);
    }
  }

  lemma {:induction false} EmptyBuckets(g: seq<(string, seq<string>)>)
    requires forall j :: 0 <= j < |g| ==> g[j].1 == []
    ensures AllLines(g) == []
  {
    if g != [] {
      EmptyBuckets(g[..|g| - 1]);
    }
  }

  function KeyOf(item: (string, seq<string>)): string {
    item.0
  }

  /** The keys are the timestamp texts of the entries. */
  lemma KeysCover(es: seq<Entry>)
    ensures forall k :: k in Keys(es) <==> exists i :: 0 <= i < |es| && es[i].ts.text == k
  {
    var ts := Seqs.Map(es, TextOf);
    assert forall i :: 0 <= i < |es| ==> ts[i] == es[i].ts.text;
  }

  /** Without `preserve` the keys are sorted by value, stably: keys of equal
      value keep their order of first appearance. Either way each key comes
      once. */
  lemma OrderShape(es: seq<Entry>, preserve: bool)
    ensures var order := Order(es, preserve);
      Seqs.NoDuplicates(order) && (forall k :: k in order <==> k in Keys(es))
      && (!preserve ==> Sorting.SortedBy(order, TimestampValue))
      && (!preserve ==> forall v :: Seqs.Filter(order, Sorting.KeyIs(TimestampValue, v)) == Seqs.Filter(Keys(es), Sorting.KeyIs(TimestampValue, v)))
  {
    var keys := Keys(es);
    if !preserve {
      var order := Sorting.SortBy(keys, TimestampValue);
      Sorting.SortByPermutation(keys, TimestampValue);
      Seqs.NoDuplicatesPermutation(keys, order);
      SortedKeys(keys);
      Sorting.SortBySorted(keys, TimestampValue);
      forall v ensures Seqs.Filter(order, Sorting.KeyIs(TimestampValue, v)) == Seqs.Filter(keys, Sorting.KeyIs(TimestampValue, v)) {
        Sorting.SortByStable(keys, TimestampValue, v);
      }
    }
  }

  /** The keys of the items are the keys they were built from. */
  lemma PairsKeys(ks: seq<string>, es: seq<Entry>)
    ensures Seqs.Map(Pairs(ks, es), KeyOf) == ks
  {
  }

  /** The blocks are the distinct timestamps, each once, and together they
      hold every observation line exactly once; without `preserve` they are
      in ascending numeric order, with equal values in order of first
      appearance. */
  lemma GroupedShape(lines: seq<string>, preserve: bool)
    requires GroupObs(lines, preserve).Success?
    ensures var g := GroupObs(lines, preserve).value;
      var es := Observations(lines).value;
      var ks := Seqs.Map(g, KeyOf);
      Seqs.NoDuplicates(ks)
      && (forall k :: k in ks <==> exists i :: 0 <= i < |es| && es[i].ts.text == k)
      && multiset(AllLines(g)) == multiset(Seqs.Map(Seqs.Filter(lines, IsObsLine), WithNewline))
      && (!preserve ==> Sorting.SortedBy(ks, TimestampValue))
      && (!preserve ==> forall v :: Seqs.Filter(ks, Sorting.KeyIs(TimestampValue, v)) == Seqs.Filter(Keys(es), Sorting.KeyIs(TimestampValue, v)))
  {
    var es := Observations(lines).value;
    var order := Order(es, preserve);
    PairsKeys(order, es);
    KeysCover(es);
    OrderShape(es, preserve);
    AllLinesPartition(order, es);
    ObservationsLines(lines);
  }

  /** The two lines that open the block of timestamp `ts`. */
  function StepDirective(ts: string): string {
    "#program step(t" + ts + ").\n"
  }

  function StepTime(ts: string): string {
    "step_time(" + ts + ", " + ts + ").\n"
  }

  /** The lines of one block: the directive, the `step_time` fact, the
      observation lines and a blank line. */
  function BlockLines(item: (string, seq<string>)): seq<string> {
    [StepDirective(item.0), StepTime(item.0)] + item.1 + ["\n"]
  }

  /** The blank line between the header and the blocks, when both exist. */
  function Separator(grouped: seq<(string, seq<string>)>, header: seq<string>): seq<string> {
    if header != [] && grouped != [] then ["\n"] else []
  }

  /** The lines `write_program` writes, one after the other. */
  function Written(grouped: seq<(string, seq<string>)>, header: seq<string>): seq<string> {
    Seqs.Map(header, WithNewline) + Separator(grouped, header) + Seqs.Flatten(Seqs.Map(grouped, BlockLines))
  }

  /** The text `write_program` writes. */
  function Program(grouped: seq<(string, seq<string>)>, header: seq<string>): string {
    Concat(Written(grouped, header))
  }

  /** The text of the blocks, built from the back as they are written. */
  function BlocksText(g: seq<(string, seq<string>)>): string {
    if g == [] then [] else BlocksText(g[..|g| - 1]) + Concat(BlockLines(g[|g| - 1]))
  }

  lemma {:induction false} BlocksTextIs(g: seq<(string, seq<string>)>)
    ensures BlocksText(g) == Concat(Seqs.Flatten(Seqs.Map(g, BlockLines)))
  {
    if g != [] {
      var n := |g|;
      var init, last := g[..n - 1], g[n - 1];
      assert g == init + [last];
      BlocksTextIs(init);
      Seqs.MapSnoc(init, last, BlockLines);
      var m := Seqs.Map(g, BlockLines);
      assert m[..n - 1] == Seqs.Map(init, BlockLines);
      ConcatAppend(Seqs.Flatten(Seqs.Map(init, BlockLines)), BlockLines(last));
    }
  }

  /** The program text is the header text, the separator and the blocks. */
  lemma ProgramParts(grouped: seq<(string, seq<string>)>, header: seq<string>)
    ensures Program(grouped, header)
      == Concat(Seqs.Map(header, WithNewline)) + Concat(Separator(grouped, header)) + BlocksText(grouped)
  {
    var heads, sep := Seqs.Map(header, WithNewline), Separator(grouped, header);
    var blocks := Seqs.Flatten(Seqs.Map(grouped, BlockLines));
    ConcatAppend(heads + sep, blocks);
    ConcatAppend(heads, sep);
    BlocksTextIs(grouped);
  }

  /** The text of one block. */
  lemma BlockText(ts: string, obs: seq<string>)
    ensures Concat(BlockLines((ts, obs))) == StepDirective(ts) + StepTime(ts) + Concat(obs) + "\n"
  {
    var d, t := StepDirective(ts), StepTime(ts);
    assert BlockLines((ts, obs)) == [d] + ([t] + (obs + ["\n"]));
    ConcatCons(d, [t] + (obs + ["\n"]));
    ConcatCons(t, obs + ["\n"]);
    ConcatSnoc(obs, "\n");
    Seqs.Associative(d, t, Concat(obs) + "\n");
    Seqs.Associative(d + t, Concat(obs), "\n");
  }

  /** One block of `write_program`: the directive, the `step_time` fact,
      each observation line, then a blank line. */
  method WriteBlock(out: string, ts: string, obs: seq<string>) returns (r: string)
    ensures r == out + Concat(BlockLines((ts, obs)))
  {
    r := out + StepDirective(ts);
    r := r + StepTime(ts);
    ghost var opening := r;
    for j := 0 to |obs|
      invariant r == opening + ConcatRange(obs, 0, j)
    {
      Seqs.Associative(opening, ConcatRange(obs, 0, j), obs[j]);
      r := r + obs[j];
    }
    r := r + "\n";
    ConcatRangeIs(obs, 0, |obs|);
    assert obs[0..|obs|] == obs;
    BlockText(ts, obs);
    Seqs.Associative(out, StepDirective(ts), StepTime(ts));
    Seqs.Associative(out, StepDirective(ts) + StepTime(ts), Concat(obs));
    Seqs.Associative(out, StepDirective(ts) + StepTime(ts) + Concat(obs), "\n");
  }

  /** The header part of `write_program`: each header line with a line
      break ensured. */
  method WriteHeader(header: seq<string>) returns (out: string)
    ensures out == Concat(Seqs.Map(header, WithNewline))
  {
    ghost var heads := Seqs.Map(header, WithNewline);
    out := "";
    for i := 0 to |header|
      invariant out == ConcatRange(heads, 0, i)
    {
      out := out + WithNewline(header[i]);
    }
    ConcatRangeIs(heads, 0, |header|);
    assert heads[0..|header|] == heads;
  }

  /** The block part of `write_program`: every block after `front`. */
  method WriteBlocks(front: string, grouped: seq<(string, seq<string>)>) returns (out: string)
    ensures out == front + BlocksText(grouped)
  {
    out := front;
    for i := 0 to |grouped|
      invariant out == front + BlocksText(grouped[..i])
    {
      var (ts, obs) := grouped[i];
      out := WriteBlock(out, ts, obs);
      assert grouped[..i + 1][..i] == grouped[..i];
      Seqs.Associative(front, BlocksText(grouped[..i]), Concat(BlockLines(grouped[i])));
    }
    assert grouped[..|grouped|] == grouped;
  }

  /** `write_program`: the header lines, the separating blank line, then
      every block. */
  method WriteProgram(grouped: seq<(string, seq<string>)>, header: seq<string>) returns (out: string)
    ensures out == Program(grouped, header)
  {
    out := WriteHeader(header);
    if header != [] && grouped != [] {
      out := out + "\n";
    }
    assert Concat(["\n"]) == "\n" by {
      ConcatSnoc([], "\n");
    }
    out := WriteBlocks(out, grouped);
    ProgramParts(grouped, header);
  }

  /** The two opening lines of a block are complete lines. */
  lemma OpeningLines(ts: string)
    requires '\n' !in ts
    ensures IsLine(StepDirective(ts)) && IsLine(StepTime(ts))
  {
    var d, t := StepDirective(ts), StepTime(ts);
    assert d[..|d| - 1] == "#program step(t" + ts + ").";
    assert t[..|t| - 1] == "step_time(" + ts + ", " + ts + ").";
  }

  /** Timestamps and observation lines that are each on one line. */
  predicate OneLineItems(grouped: seq<(string, seq<string>)>) {
    forall i :: 0 <= i < |grouped| ==> '\n' !in grouped[i].0 && AllComplete(grouped[i].1)
  }

  lemma {:induction false} BlocksComplete(grouped: seq<(string, seq<string>)>)
    requires OneLineItems(grouped)
    ensures AllComplete(Seqs.Flatten(Seqs.Map(grouped, BlockLines)))
  {
    if grouped != [] {
      var n := |grouped|;
      BlocksComplete(grouped[..n - 1]);
      Seqs.FlattenMapPrefixStep(grouped, n - 1, BlockLines);
      assert grouped[..n] == grouped;
      OpeningLines(grouped[n - 1].0);
      assert IsLine("\n");
    }
  }

  /** What `write_program` writes reads back, line by line, as the header
      lines, the blank separating line and, per timestamp, the directive,
      the `step_time` fact, the observation lines and a blank line: no line
      runs into the next one. */
  lemma ProgramLines(grouped: seq<(string, seq<string>)>, header: seq<string>)
    requires forall i :: 0 <= i < |header| ==> IsLine(WithNewline(header[i]))
    requires OneLineItems(grouped)
    ensures Lines(Program(grouped, header)) == Written(grouped, header)
  {
    BlocksComplete(grouped);
    assert IsLine("\n");
    LinesOfLines(Written(grouped, header));
  }

  /** Every entry's line is a complete line and its timestamp is on one
      line, when the lines are those of a text. */
  lemma {:induction false} EntriesOneLine(lines: seq<string>)
    requires Observations(lines).Success?
    requires forall i :: 0 <= i < |lines| ==> lines[i] != [] && '\n' !in lines[i][..|lines[i]| - 1]
    ensures forall e :: e in Observations(lines).value ==> IsLine(e.line) && '\n' !in e.ts.text
  {
    if lines != [] {
      var n := |lines|;
      var init := lines[..n - 1];
      forall i | 0 <= i < |init| ensures init[i] != [] && '\n' !in init[i][..|init[i]| - 1] {
        assert init[i] == lines[i];
      }
      assert Observations(init).Success?;
      EntriesOneLine(init);
      var es := Observations(init).value;
      var fact := StripInlineComment(lines[n - 1]);
      if StartsWith(fact, "obs(") {
        var ts := ExtractTimestamp(fact, n).value;
        assert Observations(lines).value == es + [Entry(WithNewline(lines[n - 1]), ts)];
        CompletedLine(lines[n - 1]);
        ParsedOneLine(ts.text);
      } else {
        assert Observations(lines).value == es;
      }
    }
  }

  /** The items of a grouping are on one line each. */
  lemma GroupedOneLine(es: seq<Entry>, preserve: bool)
    requires forall e :: e in es ==> IsLine(e.line) && '\n' !in e.ts.text
    ensures OneLineItems(Pairs(Order(es, preserve), es))
  {
    var order := Order(es, preserve);
    OrderShape(es, preserve);
    KeysCover(es);
    forall i | 0 <= i < |order| ensures '\n' !in order[i] && AllComplete(Bucket(es, order[i])) {
      assert order[i] in order && order[i] in Keys(es);
      var a :| 0 <= a < |es| && es[a].ts.text == order[i];
      assert es[a] in es;
      forall j | 0 <= j < |Bucket(es, order[i])| ensures IsLine(Bucket(es, order[i])[j]) {
        var b := Seqs.FilterMapSource(es, LineIfAt(order[i]), Bucket(es, order[i])[j]);
        assert es[b] in es;
      }
    }
  }

  /** The text `main` writes for the contents of the input file. */
  function StepProgramText(text: string, preserve: bool): Result<string, StepError> {
    var lines := Lines(text);
    match GroupObs(lines, preserve)
    case Failure(e) => Failure(e)
    case Success(grouped) => Success(Program(grouped, HeaderLines(lines)))
  }

  /** The generated program, read line by line, is the header lines of the
      input, a blank line when there are both header lines and blocks, then
      each block's lines. */
  lemma StepProgramLines(text: string, preserve: bool)
    requires StepProgramText(text, preserve).Success?
    ensures var lines := Lines(text);
      Lines(StepProgramText(text, preserve).value) == Written(GroupObs(lines, preserve).value, HeaderLines(lines))
  {
    var lines := Lines(text);
    LinesShape(text);
    var header := HeaderLines(lines);
    forall i | 0 <= i < |header| ensures IsLine(WithNewline(header[i])) {
      var l := Seqs.Filter(lines, IsHeaderLine)[i];
      Seqs.FilterMembers(lines, IsHeaderLine, l);
      CompletedLine(l);
    }
    EntriesOneLine(lines);
    GroupedOneLine(Observations(lines).value, preserve);
    ProgramLines(GroupObs(lines, preserve).value, header);
  }
}
