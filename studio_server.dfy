/** The small rules of the studio's back end: the default repair flag, the
    extra parameters, the result path in the run's output, the argument
    vector of a run, which exit codes count as success, and the listing of
    result files. The HTTP routes, the file system and the child process
    are not modelled; their inputs and outputs are parameters. */
module StudioServer {
  import opened Wrappers
  import opened Text
  import Seqs
  import Sorting

  /** `inferRepairFlag`: an explicit `yes` or `no` is kept; otherwise the
      naive mode runs without repair and every other mode with it. */
  function InferRepairFlag(mode: string, explicit: Option<string>): (r: string)
    ensures r == "yes" || r == "no"
    ensures explicit == Some("yes") || explicit == Some("no") ==> Some(r) == explicit
    ensures explicit != Some("yes") && explicit != Some("no") ==> (r == "no" <==> mode == "naive")
  {
    if explicit == Some("yes") || explicit == Some("no") then explicit.value
    else if mode == "naive" then "no" else "yes"
  }

  /** `parseAdditionalParameters`: nothing for an empty text, otherwise the
      white-space separated tokens in order. */
  function ParseAdditionalParameters(parameters: string): (r: seq<string>)
    ensures parameters == [] ==> r == []
    ensures forall i :: 0 <= i < |r| ==> r[i] != [] && NoSpace(r[i])
  {
    if parameters == [] then [] else Words(parameters)
  }

  /** The tokens lose only white space: put back together, they are the
      characters of the text that are not white space, in order. */
  lemma ParametersKeepText(parameters: string)
    ensures Concat(ParseAdditionalParameters(parameters)) == NonSpace(parameters)
  {
    WordsLoseOnlySpace(parameters);
  }

  /** Each token is a maximal run of non-white-space characters: after
      any white space, a run followed by white space, or by the end of the
      text, is the next token, whole. */
  lemma ParametersMaximalRuns(pre: string, w: string, rest: string)
    requires forall i :: 0 <= i < |pre| ==> IsSpace(pre[i])
    requires w != [] && NoSpace(w)
    requires rest == [] || IsSpace(rest[0])
    ensures ParseAdditionalParameters(pre + w + rest) == [w] + ParseAdditionalParameters(rest)
  {
    WordsStep(pre, w, rest);
    assert (pre + w + rest)[|pre|] == w[0];
  }

  /** Tokens written with single spaces between them read back as the
      same tokens. */
  lemma ParametersOfJoin(ws: seq<string>)
    requires forall i :: 0 <= i < |ws| ==> ws[i] != [] && NoSpace(ws[i])
    ensures ParseAdditionalParameters(Join(" ", ws)) == ws
  {
    WordsOfJoin(" ", ws);
    if ws != [] {
      assert Join(" ", ws)[..|ws[0]|] == ws[0];
    }
  }

  const Marker := "Results saved to "

  /** The characters a JavaScript `.` does not match. */
  predicate IsLineEnd(c: char) {
    c == '\n' || c == '\r' || c == '\U{2028}' || c == '\U{2029}'
  }

  /** `/Results saved to (.+)/` can match at `i`: the marker is there and
      at least one character of the same line follows it. */
  predicate MatchAt(s: string, i: nat) {
    i + |Marker| < |s| && s[i..i + |Marker|] == Marker && !IsLineEnd(s[i + |Marker|])
  }

  /** The first position from `i` on where the pattern matches. */
  function FirstMatch(s: string, i: nat): (r: Option<nat>)
    ensures r.Some? ==> i <= r.value && MatchAt(s, r.value)
    ensures r.Some? ==> forall j :: i <= j < r.value ==> !MatchAt(s, j)
    ensures r.None? ==> forall j :: i <= j ==> !MatchAt(s, j)
    decreases |s| - i
  {
    if i + |Marker| >= |s| then None
    else if MatchAt(s, i) then Some(i)
    else FirstMatch(s, i + 1)
  }

  /** The text up to the first line end. */
  function RestOfLine(t: string): (r: string)
    ensures StartsWith(t, r)
    ensures forall k :: 0 <= k < |r| ==> !IsLineEnd(r[k])
    ensures r == t || IsLineEnd(t[|r|])
  {
    if t == [] || IsLineEnd(t[0]) then []
    else
      var rest := RestOfLine(t[1..]);
      assert t[..|rest| + 1] == [t[0]] + t[1..][..|rest|];
      [t[0]] + rest
  }

  /** `extractResultPath`: the rest of the line after the first match of
      the marker, stripped, or `None` when the pattern matches nowhere. */
  function ExtractResultPath(stdout: string): (r: Option<string>)
    ensures r.None? <==> forall i :: 0 <= i < |stdout| ==> !MatchAt(stdout, i)
    ensures r.Some? ==> exists k :: (0 <= k < |stdout| && MatchAt(stdout, k)
      && (forall j :: 0 <= j < k ==> !MatchAt(stdout, j))
      && r.value == Strip(RestOfLine(stdout[k + |Marker|..])))
  {
    match FirstMatch(stdout, 0)
    case Some(k) => Some(Strip(RestOfLine(stdout[k + |Marker|..])))
    case None => None
  }

  /** A line `Results saved to <path>` at the start of the output gives the
      path back, whatever follows the line. */
  lemma ResultPathReadsBack(path: string, rest: string)
    requires path != [] && Strip(path) == path
    requires forall k :: 0 <= k < |path| ==> !IsLineEnd(path[k])
    ensures ExtractResultPath(Marker + path + "\n" + rest) == Some(path)
  {
    var s := Marker + path + "\n" + rest;
    assert s[..|Marker|] == Marker;
    assert s[|Marker|] == path[0];
    assert MatchAt(s, 0);
    var t := s[|Marker|..];
    assert t == path + ("\n" + rest);
    RestOfLineStops(path, "\n" + rest);
  }

  /** The line ends where its text is followed by a line end. */
  lemma {:induction false} RestOfLineStops(line: string, after: string)
    requires forall k :: 0 <= k < |line| ==> !IsLineEnd(line[k])
    requires after != [] && IsLineEnd(after[0])
    ensures RestOfLine(line + after) == line
  {
    if line != [] {
      assert (line + after)[1..] == line[1..] + after;
      RestOfLineStops(line[1..], after);
      assert line == [line[0]] + line[1..];
    } else {
      assert line + after == after;
    }
  }

  /** The exit codes the studio counts as success. */
  const SuccessExitCodes: set<int> := {0, 10, 20, 30}

  /** The success test of a run: a missing code counts as -1. */
  function RunSucceeded(code: Option<int>): (r: bool)
    ensures code.None? ==> !r
    ensures code.Some? ==> (r <==> code.value == 0 || code.value == 10 || code.value == 20 || code.value == 30)
  {
    var c := match code case Some(v) => v case None => -1;
    c in SuccessExitCodes
  }

  /** A JSON value given for `verbose`. */
  datatype Flag = FlagTrue | FlagText(text: string) | FlagOther

  /** The window of a request. */
  datatype Window = Window(start: Option<string>, end: Option<string>)

  /** The fields of a run request that shape the argument vector; numbers
      are integers and the window bounds are given as the text they print
      as. */
  datatype RunRequest = RunRequest(
    appName: Option<string>, app: Option<string>, mode: Option<string>, timeline: Option<string>,
    threads: Option<int>, threadCount: Option<int>, unit: Option<string>, repair: Option<string>,
    windowStart: Option<string>, windowEnd: Option<string>, window: Option<Window>,
    verbose: Option<Flag>, parameters: Option<string>)

  /** JavaScript `a || b` on optional text: an absent or empty first value
      gives the second. */
  function OrText(a: Option<string>, b: string): string {
    match a case Some(x) => if x != [] then x else b case None => b
  }

  /** JavaScript `a || b` on optional numbers: an absent or zero first value
      gives the second. */
  function OrNumber(a: Option<int>, b: int): int {
    match a case Some(x) => if x != 0 then x else b case None => b
  }

  /** JavaScript `a ?? b`. */
  function OrElse(a: Option<string>, b: Option<string>): Option<string> {
    if a.Some? then a else b
  }

  function AppName(req: RunRequest): string {
    OrText(req.appName, OrText(req.app, "lung_cancer"))
  }

  function Mode(req: RunRequest): string {
    OrText(req.mode, OrText(req.timeline, "naive"))
  }

  function Threads(req: RunRequest): int {
    OrNumber(req.threads, OrNumber(req.threadCount, 1))
  }

  function WindowStart(req: RunRequest): Option<string> {
    OrElse(req.windowStart, match req.window case Some(w) => w.start case None => None)
  }

  function WindowEnd(req: RunRequest): Option<string> {
    OrElse(req.windowEnd, match req.window case Some(w) => w.end case None => None)
  }

  predicate Verbose(req: RunRequest) {
    req.verbose == Some(FlagTrue) || req.verbose == Some(FlagText("yes"))
  }

  /** The five arguments every run starts with, in order. */
  function FixedArgs(req: RunRequest): (r: seq<string>)
    ensures |r| == 5
  {
    ["--app=" + AppName(req), "--timeline=" + Mode(req), "--thread-N=" + IntText(Threads(req)),
     "--unit=" + OrText(req.unit, "seconds"), "--repair=" + InferRepairFlag(Mode(req), req.repair)]
  }

  /** The arguments between the fixed ones and the extra parameters:
      `--verbose` when asked for, then the window when both bounds are
      given. */
  function OptionalArgs(req: RunRequest): (r: seq<string>)
    ensures ("--verbose" in r <==> Verbose(req))
    ensures (exists w :: w in r && StartsWith(w, "--window=")) <==> WindowStart(req).Some? && WindowEnd(req).Some?
    ensures |r| <= 2
  {
    var v := if Verbose(req) then ["--verbose"] else [];
    var w := if WindowStart(req).Some? && WindowEnd(req).Some? then
      ["--window=" + WindowStart(req).value + "-" + WindowEnd(req).value] else [];
    assert "--verbose"[2] != "--window="[2];
    assert w != [] ==> StartsWith(w[0], "--window=") && w[0] in v + w;
    v + w
  }

  /** The argument vector of `/api/run`, built by successive pushes. */
  method RunArgs(req: RunRequest) returns (args: seq<string>)
    ensures |args| == 5 + |OptionalArgs(req)| + |ParseAdditionalParameters(OrText(req.parameters, ""))|
    ensures args[..5] == FixedArgs(req)
    ensures args[5..|args| - |ParseAdditionalParameters(OrText(req.parameters, ""))|] == OptionalArgs(req)
    ensures args[|args| - |ParseAdditionalParameters(OrText(req.parameters, ""))|..]
      == ParseAdditionalParameters(OrText(req.parameters, ""))
  {
    var mode := Mode(req);
    var repair := InferRepairFlag(mode, req.repair);
    var windowStart := WindowStart(req);
    var windowEnd := WindowEnd(req);
    args := ["--app=" + AppName(req), "--timeline=" + mode, "--thread-N=" + IntText(Threads(req)),
             "--unit=" + OrText(req.unit, "seconds"), "--repair=" + repair];
    if Verbose(req) {
      args := args + ["--verbose"];
    }
    if windowStart.Some? && windowEnd.Some? {
      args := args + ["--window=" + windowStart.value + "-" + windowEnd.value];
    }
    var extra := ParseAdditionalParameters(OrText(req.parameters, ""));
    args := args + extra;
  }

  /** A directory entry of the results folder. */
  datatype Entry = Entry(name: string, isFile: bool)

  predicate IsJsonFile(e: Entry) {
    e.isFile && EndsWith(e.name, ".json")
  }

  function NameOf(e: Entry): string {
    e.name
  }

  /** `listResultFiles` once the folder is read: the names of the `.json`
      files, in descending order. */
  function ListResultFiles(entries: seq<Entry>): seq<string> {
    Sorting.Reverse(Sorting.Sort(Seqs.Map(Seqs.Filter(entries, IsJsonFile), NameOf)))
  }

  /** The listing holds the names of the `.json` files, each as often as it
      occurs, and no other name, in descending order. */
  lemma ListResultFilesMeaning(entries: seq<Entry>)
    ensures var r := ListResultFiles(entries);
      multiset(r) == multiset(Seqs.Map(Seqs.Filter(entries, IsJsonFile), NameOf))
      && forall i, j :: 0 <= i < j < |r| ==> Sorting.Below(r[j], r[i])
  {
    var names := Seqs.Map(Seqs.Filter(entries, IsJsonFile), NameOf);
    var sorted := Sorting.Sort(names);
    Sorting.SortPermutation(names);
    Sorting.SortAscending(names);
    Sorting.ReversePermutation(sorted);
    Sorting.ReverseDescending(sorted);
  }

  /** Every listed name is a `.json` file of the folder. */
  lemma ListedAreJson(entries: seq<Entry>, name: string)
    requires name in ListResultFiles(entries)
    ensures exists e :: e in entries && IsJsonFile(e) && e.name == name
  {
    var kept := Seqs.Filter(entries, IsJsonFile);
    var names := Seqs.Map(kept, NameOf);
    ListResultFilesMeaning(entries);
    assert name in multiset(names);
    var i :| 0 <= i < |names| && names[i] == name;
    Seqs.FilterMembers(entries, IsJsonFile, kept[i]);
  }
}
