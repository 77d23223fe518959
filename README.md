# CASPER rules around the solver, in Dafny

CASPER runs clingo, an answer-set solver, over clinical timelines. Around the
solver it has a set of deterministic rules. This project models those rules
and proves what they promise:

- **Multi-shot driver** (`MultishotDriver`). It reads the step order from a
  facts file. It keeps the stored model atoms and drives one solving session
  through the per-step cycle: ground, activate, optional check, solve,
  deactivate, clean up. The session is a class. Its grounded atoms and their
  external truth values are fields, and grounding, solving and cleanup
  choose their results freely within their contracts.
- **Meta-event pass** (`ProcessAnswers`). It decides, from an exit code and
  the solver's parsed output, what a run answers. It rewrites the witness
  values and the `Input` list of a report. The solver run is a function
  parameter (an oracle).
- **Line-oriented ASP rewriters**:
  - statement splitting and classification (`AspStatements`);
  - the simple-event guard injection (`SimpleEvents`) and the meta-event
    check program (`MetaEvents`);
  - grouping observations into step blocks (`StepProgram`) and
    collecting steps into activation facts (`StepActivation`);
  - the atemporal header (`AtemporalFacts`) and the time-window filter
    (`FilterFact`).
- **Studio**:
  - the event-atom parser (`AtomParser`);
  - the report-to-answer-set mapping with its summaries (`CasperParser`);
  - the server's small rules (`StudioServer`).
- **Shared modules**:
  - the top-level comma split that the Python and TypeScript copies share,
    with their different nesting rules (`TopLevel`);
  - Python/JavaScript string behaviour (`Text`), sequences (`Seqs`) and
    code-point order with sorting (`Sorting`).
- **Cross-file facts** (`Pipeline`): how the step header one generator
  writes is read by the two step readers, and how the two callers of the
  solver judge exit code 20.

`utils/generate_meta_events.py` repeats `split_statements`,
`leading_content`, `classify_statements` and `indent_block` of
`utils/generate_simple_events.py` character for character. They are modelled
once, in `AspStatements`, and the rows below cite the simple-event copy.

## Model

| member | source | states |
|---|---|---|
| MultishotDriver.StepOfMeaning | execution/multishot_driver.py:24-28 | a line yields step `v` exactly when, stripped, it is `#program step(` + a non-empty run of digits of value `v` + `).` |
| MultishotDriver.ParseStepOrder | execution/multishot_driver.py:20-29 | the loop returns the steps of the lines that declare one, in file order |
| MultishotDriver.StepsOfAppend | execution/multishot_driver.py:21-29 | steps are taken in file order: the steps of a concatenation are the first part's followed by the second's |
| MultishotDriver.RepeatedStepKept | execution/multishot_driver.py:21-29 | a header that appears twice yields its step twice (no de-duplication) |
| MultishotDriver.StepsOfMembers | execution/multishot_driver.py:21-29 | a value is in the step order exactly when some line declares it |
| MultishotDriver.AtomStore.CollectModel | execution/multishot_driver.py:39-40 | one model's atoms are appended, sorted; earlier entries are unchanged |
| MultishotDriver.WitnessesAppend | execution/multishot_driver.py:81 | the store over several models is the stores of the parts, one after the other |
| MultishotDriver.WitnessesContent | execution/multishot_driver.py:39-40 | the store holds exactly every shown atom of every model, as a multiset |
| MultishotDriver.Session.Ground | execution/multishot_driver.py:47 | grounding only adds atoms; new externals start false and existing values are kept |
| MultishotDriver.Session.ActivateExternals | execution/multishot_driver.py:32-36 | exactly the existing atoms `name(value)` with `name` in the list get the new value; every other assignment is unchanged |
| MultishotDriver.Session.Solve | execution/multishot_driver.py:81 | every model found is passed in order to `collect_model` and recorded as solved; the atoms and assignment do not change |
| MultishotDriver.Session.Cleanup | execution/multishot_driver.py:86 | cleanup may only drop atoms; kept atoms keep their values |
| MultishotDriver.StepActionsCheck | execution/multishot_driver.py:77-85 | the check part is grounded, and the check guards are switched on and off, if and only if there are check files |
| MultishotDriver.StepActionsOrder | execution/multishot_driver.py:73-86 | within a step, everything before the solve is a grounding or a switch-on |
| MultishotDriver.RunStep | execution/multishot_driver.py:73-86 | one step makes exactly the requests of the fixed per-step sequence; the store gains exactly the models its solve call reported; every existing guard atom is left false |
| MultishotDriver.RunSteps | execution/multishot_driver.py:73-86 | the loop makes one cycle per step in order; guards stay false between steps; the store grows by exactly the models the solve calls reported, in order |
| MultishotDriver.RunIncremental | execution/multishot_driver.py:43-86 | an empty step order fails after grounding only `base`; otherwise the requests are `base` then the steps' cycles, and the result is the stored atoms |
| ProcessAnswers.ComputeMetaEvents | utils/process_answers.py:17-54 | an exception or an exit code outside {0, 10, 30} (20 included) gives no answer; a successful run whose report has a first witness gives that witness's value; a non-empty answer comes only from such a run |
| ProcessAnswers.FirstValueMeaning | utils/process_answers.py:41-50 | the first witness's value is read whenever there is one; otherwise the answer is empty |
| ProcessAnswers.FactsLines | utils/process_answers.py:20 | the facts text reads back, line by line, as each event followed by `.` |
| ProcessAnswers.Report.ProcessWitness | utils/process_answers.py:82-91 | only the witness at `i` changes, and its value becomes the recomputed answer |
| ProcessAnswers.Report.ProcessWitnesses | utils/process_answers.py:93-96 | the witness list keeps its length and order, and each value is the answer computed from its own events |
| ProcessAnswers.Report.UpdateInput | utils/process_answers.py:104-108 | `Input` loses the entries naming `parameters3.lp`; the meta-event program is appended |
| ProcessAnswers.Report.Rewrite | utils/process_answers.py:65-108 | the base programs are the words of the first argument; the witnesses are rewritten, then `Input` |
| ProcessAnswers.InputRewrite | utils/process_answers.py:104-108 | the new `Input` ends with the meta-event program; before it are exactly the kept old entries, as a subsequence |
| TopLevel.ClampedDepth | utils/generate_simple_events.py:44-47 | with the floor at zero the nesting depth is never negative |
| TopLevel.PiecesJoin | utils/generate_simple_events.py:38-50 | the raw pieces joined with commas give back the text |
| TopLevel.PiecesCount | utils/generate_simple_events.py:39 | there is one piece more than there are depth-0 commas |
| TopLevel.Arguments | utils/generate_simple_events.py:48-50 | the arguments are the stripped pieces, with an empty last piece dropped |
| TopLevel.SplitArguments | utils/generate_simple_events.py:34-50 | the character loop returns exactly the arguments (also `splitArguments` of the studio, with its own nesting rule) |
| TopLevel.StrayCloseSplitsOnlyWhenClamped | studio/src/utils/atomParser.ts:16-18 | after a stray `)` the clamped Python scan splits at the next comma, the unclamped studio scan does not |
| TopLevel.SquareBracketsNestOnlyInPython | utils/generate_simple_events.py:44 | `[x,y]` is one argument for the Python scan and two for the studio's |
| TopLevel.PiecesOfSimple | studio/src/utils/atomParser.ts:7-33 | plain fields and `(a,b)` groups joined with commas split back into exactly those fields |
| SimpleEvents.DetectTimeVariable | utils/generate_simple_events.py:53-67 | a time variable is non-empty and starts with an upper-case letter |
| SimpleEvents.TimeVariableNeedsParentheses | utils/generate_simple_events.py:57-58 | a time variable is found only when the stripped head has `(` and ends with `)` |
| SimpleEvents.AtomArguments | utils/generate_simple_events.py:59-67 | the time variable of `name(inner)` is read from the top-level arguments of `inner` |
| SimpleEvents.TimeVariableOfThreeArguments | utils/generate_simple_events.py:62-66 | for `name(x, V, y)` the time variable is `V` when it starts upper-case, and none otherwise |
| SimpleEvents.TimeVariableAfterTrailingComma | utils/generate_simple_events.py:48-50 | with an empty last argument the argument before the middle one is taken |
| SimpleEvents.NoTimeVariableOfOneArgument | utils/generate_simple_events.py:62-63 | a head with a single argument has no time variable |
| SimpleEvents.SeparatePrefix | utils/generate_simple_events.py:79-90 | the loop splits the statement where its first content line starts |
| SimpleEvents.PrefixSplitParts | utils/generate_simple_events.py:79-90 | prefix + core is the statement, and the prefix is the blank and comment lines before the first content line |
| SimpleEvents.Guards | utils/generate_simple_events.py:115-118 | `use_simple_events(t)` comes first, and `time_scope(t, V)` is added exactly when a time variable is found |
| SimpleEvents.GuardedRuleStart | utils/generate_simple_events.py:120-131 | the guarded rule is `head :-`, the first guard, the time guard only when found, and ends with `.` |
| SimpleEvents.AddGuardsNoContent | utils/generate_simple_events.py:94-100 | a blank or comment-only statement comes back with only its surrounding line breaks removed |
| SimpleEvents.AddGuardsFact | utils/generate_simple_events.py:103-107 | a statement without `:-` keeps its text and ends with `.` |
| SimpleEvents.AddGuardsRule | utils/generate_simple_events.py:98-132 | a rule keeps its leading blank and comment lines and gets the guarded form of its stripped head and cleaned body: `use_simple_events(t)` is its first body literal, `time_scope(t, V)` the second when the head has the time variable `V`, and it ends with `.` |
| SimpleEvents.BuildOutput | utils/generate_simple_events.py:186-197 | the loop writes exactly the output text |
| SimpleEvents.OutputShape | utils/generate_simple_events.py:186-197 | the output starts with `#program base.\n\n` and the base statements, has the step header after them, and ends with exactly one line break |
| AspStatements.StatementsRoundTrip | utils/generate_simple_events.py:135-148 | the statements concatenated give back the input |
| AspStatements.SplitStatements | utils/generate_simple_events.py:135-148 | the buffer loop closes a statement only at a line ending in `.` that is neither a comment nor a directive |
| AspStatements.FirstContentShape | utils/generate_simple_events.py:151-157 | the leading content is empty exactly when every line is blank or a comment; otherwise it is the first such line, stripped |
| AspStatements.KindOfShape | utils/generate_simple_events.py:160-183 | blank and directive statements are dropped; a statement is dynamic exactly when its leading content contains `:-`; base texts end with a line break |
| AspStatements.CommentContentUnreachable | utils/generate_simple_events.py:173-175 | the leading content never starts with `%`, so that branch never fires |
| AspStatements.Classify | utils/generate_simple_events.py:164-182 | the tests for one statement give the kind `KindOf` defines |
| AspStatements.ClassifyStatements | utils/generate_simple_events.py:160-183 | base is the base texts in order and dynamic is the dynamic statements in order |
| AspStatements.ClassifiedShapes | utils/generate_simple_events.py:160-183 | every base text ends with a line break, and a statement is dynamic exactly when kept with `:-` in its leading content |
| AspStatements.IndentBlockLines | utils/generate_simple_events.py:70-76 | the lines of an indented block are the text's lines, each stripped and indented, or empty when blank |
| MetaEvents.CleanBody | utils/generate_meta_events.py:96-98 | the body is the stripped body, without one final `.` |
| MetaEvents.TransformFact | utils/generate_meta_events.py:92-94 | a statement without `:-` comes back stripped and ending in `.` |
| MetaEvents.TransformRuleShape | utils/generate_meta_events.py:95-106 | a rule becomes `head :-` (`:-` for an empty head), then `use_meta_events(t)` as its first literal and the indented body, ending with `.` |
| MetaEvents.BuildOutput | utils/generate_meta_events.py:109-120 | the loop writes exactly the output text |
| MetaEvents.PartsText | utils/generate_meta_events.py:110-118 | the parts are the base statements, then the check header and the rules only when there is a dynamic statement |
| MetaEvents.OutputShape | utils/generate_meta_events.py:110-120 | without dynamic statements no check header is written; with them it follows the base statements |
| MetaEvents.OutputEnd | utils/generate_meta_events.py:120 | the output ends with exactly one line break |
| StepProgram.StripInlineComment | utils/generate_step_program.py:18-24 | the result holds no `%` and has no white space at either end |
| StepProgram.CommentDropped | utils/generate_step_program.py:24 | everything from the first `%` on is dropped, and the code in front is stripped |
| StepProgram.ExtractTimestamp | utils/generate_step_program.py:50-65 | it fails as "not an obs fact" exactly when the text is not `obs(...).`; a timestamp read is a stripped integer literal with no comma |
| StepProgram.ExtractWritten | utils/generate_step_program.py:54-65 | `obs(args, T).` yields the timestamp `T`, with its value |
| StepProgram.ObservationsSucceed | utils/generate_step_program.py:74-78 | the file reads without error exactly when every observation line is well formed |
| StepProgram.ObservationsFailureStays | utils/generate_step_program.py:78 | the first failing line decides the error |
| StepProgram.ObservationsLines | utils/generate_step_program.py:75-81 | the entries are the observation lines, in order, each ending with a line break |
| StepProgram.GroupObsByTimestamp | utils/generate_step_program.py:68-90 | the two loops return the grouping `GroupObs` defines |
| StepProgram.AllLinesPartition | utils/generate_step_program.py:79-81 | every observation line lands in exactly one bucket |
| StepProgram.KeysCover | utils/generate_step_program.py:79-82 | the bucket keys are exactly the timestamp texts |
| StepProgram.OrderShape | utils/generate_step_program.py:84-90 | with `preserve_order` the blocks follow first appearance; otherwise they ascend by value, and equal values keep first appearance |
| StepProgram.GroupedShape | utils/generate_step_program.py:68-90 | the blocks are the distinct timestamps, each once, and together hold every observation line |
| StepProgram.BlockText | utils/generate_step_program.py:103-109 | a block is `#program step(t<ts>).`, `step_time(ts, ts).`, its lines, then a blank line |
| StepProgram.WriteProgram | utils/generate_step_program.py:93-109 | the writes produce exactly the program text |
| StepProgram.ProgramParts | utils/generate_step_program.py:97-101 | the text is the header lines, a blank line only when there are both header lines and blocks, then the blocks |
| StepProgram.ProgramLines | utils/generate_step_program.py:96-109 | the program reads back, line by line, as the lines written |
| StepProgram.StepProgramLines | utils/generate_step_program.py:112-128 | the generated program is the non-observation lines, then the step blocks |
| StepActivation.StepLabelMeaning | utils/generate_step_activation.py:24-30 | a line yields label `name` exactly when its stripped text matches `#program\s+step\(([^)]+)\)\.` with `name` captured |
| StepActivation.CollectSteps | utils/generate_step_activation.py:23-35 | the two loops return the labels de-duplicated |
| StepActivation.StepsMembers | utils/generate_step_activation.py:31-35 | the steps have no duplicates and are exactly the captured labels |
| StepActivation.StepsFirstSeen | utils/generate_step_activation.py:31-35 | steps keep the order in which labels are first met |
| StepActivation.WriteActivation | utils/generate_step_activation.py:38-48 | the writes produce the base line, a blank line and each step's lines |
| StepActivation.ActivationStart | utils/generate_step_activation.py:40 | the activation text starts with `#program base.\n\n` |
| StepActivation.ActivationLayout | utils/generate_step_activation.py:41-48 | line `2 + 8i + k` is the `k`-th line of step `i`: the seven guard facts in fixed order, then a blank line |
| StepActivation.GuardFactCount | utils/generate_step_activation.py:41-48 | there are 7 guard facts per step |
| StepActivation.Generate | utils/generate_step_activation.py:51-59 | no captured label is an error and nothing is written; otherwise the activation text of the steps |
| StepActivation.ActivationReadsBack | utils/generate_step_activation.py:38-48 | the activation text reads back, line by line, as the lines written |
| AtemporalFacts.HasHeaderMeaning | utils/generate_atemporal_facts.py:29-35 | there is a header exactly when the first line that is neither blank nor a comment starts with `#program` |
| AtemporalFacts.Output | utils/generate_atemporal_facts.py:52-61 | with a header the text is unchanged; otherwise `#program base.\n\n` comes first |
| AtemporalFacts.HeaderLines | utils/generate_atemporal_facts.py:41-42 | the added header is two lines in front of the text's own lines |
| AtemporalFacts.Idempotent | utils/generate_atemporal_facts.py:41-58 | applying the rule to its own output changes nothing |
| FilterFact.Content | utils/filter_fact.py:33 | the fact part holds no `%` |
| FilterFact.TrailingValueMeaning | utils/filter_fact.py:10 | the value found is exactly the one a match of `,\s*([+-]?\d+)\)\.\s*$` reads |
| FilterFact.KeepMeaning | utils/filter_fact.py:33-48 | a line is kept exactly when its fact part starts with `obs(`, ends in `, <integer>).`, and the integer is in the window |
| FilterFact.FilterFacts | utils/filter_fact.py:22-49 | a non-integer bound fails before anything is written; otherwise the kept lines are written |
| FilterFact.FilterLines | utils/filter_fact.py:31-49 | the loop writes exactly the kept lines, verbatim and in order |
| FilterFact.KeepLine | utils/filter_fact.py:33-48 | the per-line tests decide exactly the keep predicate |
| FilterFact.OutputSubsequence | utils/filter_fact.py:31-49 | the output is a subsequence of the input, holding exactly the kept lines |
| FilterFact.EmptyWindow | utils/filter_fact.py:48 | a window with start after end keeps nothing |
| AtomParser.WithoutParens | studio/src/utils/atomParser.ts:36 | no parenthesis survives the removal |
| AtomParser.IntervalWithoutEnd | studio/src/utils/atomParser.ts:35-42 | the code as written accepts `(5)` with an undefined end |
| AtomParser.EventWithoutEndDropped | studio/src/utils/atomParser.ts:63-75 | with the checked interval reader, the event `event(a,b,c,(5),2)` is dropped |
| AtomParser.IntervalAgreement | studio/src/utils/atomParser.ts:35-42 | the checked reading accepts what the written one accepts with an end, and rejects only texts without a comma |
| AtomParser.IntervalRoundTrip | studio/src/utils/atomParser.ts:35-42 | `(s,e)` reads back as the interval from `s` to `e` |
| AtomParser.NormalizeConfidence | studio/src/utils/atomParser.ts:77-80 | a confidence of 1, 2 or 3 is kept; any other is the closest level; a missing one stays missing |
| AtomParser.ParseEventAtom | studio/src/utils/atomParser.ts:44-91 | no event exactly when the atom lacks the `event(` prefix or the final `)`, has fewer than five arguments, or its arguments give no event; otherwise the event its arguments give, with the atom as raw text and a confidence that is a level, or missing when it is not a number |
| AtomParser.EventOfArguments | studio/src/utils/atomParser.ts:56-91 | the interval is the fourth argument when it starts with `(`, otherwise the fifth after the attribute; no event exactly when the interval has no comma or a start or end that is not a number; id, type and patient are the first three arguments trimmed; start and end are the interval's; the confidence argument follows the interval and the confidence is a level or missing |
| AtomParser.Fields | studio/src/utils/atomParser.ts:63-70 | an event has six fields with an attribute and five without |
| AtomParser.EventRoundTrip | studio/src/utils/atomParser.ts:44-91 | the atom written for an event parses back to that event, with the atom as raw text |
| AtomParser.FieldsRead | studio/src/utils/atomParser.ts:56-91 | the fields of an atom read back as its event, under both argument layouts |
| CasperParser.MinStart | studio/src/services/casperParser.ts:15 | the result is at most every start and is some event's start |
| CasperParser.MaxEnd | studio/src/services/casperParser.ts:16 | the result is at least every end and is some event's end |
| CasperParser.BuildSummary | studio/src/services/casperParser.ts:4-29 | no events give all zeros; otherwise the count is the length, start and end are the attained bounds, and the span is their difference |
| CasperParser.TypeCountsMeaning | studio/src/services/casperParser.ts:17-20 | a type has a count exactly when some event has it, and the count is the number of such events |
| CasperParser.TypeCountsTotal | studio/src/services/casperParser.ts:17-20 | the per-type counts add up to the number of events |
| CasperParser.SummaryCounts | studio/src/services/casperParser.ts:17-27 | the summary's type counts add up to its event count |
| CasperParser.ParseCasperJson | studio/src/services/casperParser.ts:31-56 | one answer set per witness, in order: the `i`-th has id `witness-(i+1)`, index `i`, the parsed events and their summary |
| CasperParser.NoWitnesses | studio/src/services/casperParser.ts:32 | no call, or no witnesses, gives no answer set |
| CasperParser.AnswerSetIdsDistinct | studio/src/services/casperParser.ts:36 | different witnesses get different ids |
| CasperParser.WitnessEventsMeaning | studio/src/services/casperParser.ts:34 | an event belongs to an answer set exactly when one of the witness's atoms parses to it |
| CasperParser.WitnessEventsRaw | studio/src/services/casperParser.ts:34 | the events' raw texts are the atoms that parse, in order |
| StudioServer.InferRepairFlag | studio/server/index.js:90-95 | an explicit `yes`/`no` is kept; otherwise `no` exactly for `naive` |
| StudioServer.ParseAdditionalParameters | studio/server/index.js:97-103 | empty text gives no token; every token is non-empty and has no white space |
| StudioServer.ParametersKeepText | studio/server/index.js:97-103 | the tokens together are the text's non-white-space characters, in order |
| StudioServer.ParametersMaximalRuns | studio/server/index.js:97-103 | after any white space, a run of non-white-space characters that is followed by white space or ends the text is the next token, whole |
| StudioServer.ParametersOfJoin | studio/server/index.js:97-103 | tokens joined by single spaces read back as the same tokens |
| Text.WordsStep | utils/process_answers.py:67 | `split()` takes maximal runs: after white space, a run followed by white space or the end is the next word, whole |
| Text.WordsOfJoin | utils/process_answers.py:67 | words joined by any non-empty white space split back into those words |
| StudioServer.ExtractResultPath | studio/server/index.js:105-111 | none exactly when the marker with a character after it occurs nowhere; otherwise the stripped rest of the line after its first match |
| StudioServer.ResultPathReadsBack | studio/server/index.js:105-111 | a line `Results saved to <path>` gives the path back |
| StudioServer.RunSucceeded | studio/server/index.js:210 | success exactly for 0, 10, 20 and 30; a missing code is a failure |
| StudioServer.OptionalArgs | studio/server/index.js:198-204 | `--verbose` is present exactly when asked for; a `--window=` argument exactly when both bounds are given |
| StudioServer.RunArgs | studio/server/index.js:196-207 | the pushes give the five fixed arguments in order, then the optional ones, then the extra parameters last |
| StudioServer.ListResultFilesMeaning | studio/server/index.js:42-46 | the listing holds the `.json` file names with their multiplicities, in descending order |
| StudioServer.ListedAreJson | studio/server/index.js:43-44 | every listed name is a `.json` file of the folder |
| Pipeline.DirectiveLabelled | utils/generate_step_activation.py:24-30 | the header written for timestamp `ts` is read as the label `t<ts>` |
| Pipeline.DirectiveNotAStep | execution/multishot_driver.py:25-28 | the multi-shot driver reads no step from that header, whatever the timestamp |
| Pipeline.DigitHeaderRead | execution/multishot_driver.py:25-28 | a header with a digit label is read by both: the driver as the value, the generator as the digits |
| Pipeline.RepeatedHeader | utils/generate_step_activation.py:31-35 | a repeated header is one step for the activation generator and two for the driver |
| Pipeline.ExitCodesDiffer | utils/process_answers.py:37 | exit code 20 succeeds for the studio and fails for the meta-event pass; the two agree on every other code |

## Left out

- File reading and writing, argparse, `print` messages, `FileNotFoundError` checks and `stdout` output. Each program's text input and text output are parameters and results.
- clingo itself. Grounding, solving and cleanup are methods whose results are chosen freely within their contracts. The command-line solver in `utils/process_answers.py` is a function parameter returning an exit code and the parsed output.
- The temporary facts file and its deletion. The facts text is part of the request passed to the solver function.
- The thread pool in `utils/process_answers.py`. Witnesses are processed one after the other, which gives the order `executor.map` returns.
- All times: `Time`, `Stop`, `CPU`, the `round(...)` calls and the witness `Time +=`. They are floating point.
- The report metadata `time` and `stats` in `studio/src/services/casperParser.ts`.
- Line splitting only breaks at `\n`. Python's `splitlines` also breaks at `\r`, `\v`, `\f`, `\x1c`–`\x1e`, `\x85` and U+2028/U+2029.
- White space is exactly six characters: space, `\t`, `\n`, `\r`, `\v` and `\f`. This holds for `strip()`, `split()`, `\s` and `trim()`. Python's `strip()` and `split()` also treat `\x1c`–`\x1f`, `\x85`, `\xa0` and the other Unicode spaces as white space. JavaScript's `trim()` and `\s` also treat `\xa0`, U+FEFF and the Unicode space separators as white space. None of these extra characters is modelled.
- SimpleEvents.DetectTimeVariable: an upper-case letter is `A`–`Z`. Python's `isupper()` at utils/generate_simple_events.py:65 also accepts other upper-case letters, such as `É`, which the model does not treat as starting a time variable.
- MultishotDriver.StepOfMeaning: a digit is `0`–`9`. Python's `isdigit()` at execution/multishot_driver.py:27 also accepts characters such as `²`. On such a header `int(param)` raises a `ValueError` that nothing catches, so the driver stops. The model reads no step from that line and goes on.
- `int()` and `Number()` accept only ASCII, optionally signed, decimal integers. Python's underscores and Unicode digits, and JavaScript's fractions, exponents, hexadecimal and `Infinity`, are not modelled. `Number("")` is 0; NaN is a missing value.
- AtomParser.ParseEventAtom: intervals are read with the checked reader `ParseInterval` (see Findings). An event atom whose interval has no comma, such as `event(a,b,c,(5),2)`, is dropped (AtomParser.EventWithoutEndDropped). The code as written keeps that event with an undefined `end`. `Math.max` over the ends in studio/src/services/casperParser.ts:16 then gives NaN, so the summary's `end` and `timeSpan` (line 24) become NaN, and its count and `types` include the event. AtomParser.EventOfArguments, CasperParser.BuildSummary and the answer-set readers inherit this.
- CasperParser.TypeCountsMeaning: type counts are a map from every type name to its count. The source counts into a plain object `{}` (studio/src/services/casperParser.ts:17-20). For a type named after an `Object.prototype` member, such as `constructor`, `toString`, `valueOf` or `hasOwnProperty`, the first count reads the inherited function, so the entry becomes a string instead of 1. A type named `__proto__` sets the prototype and leaves no own key. These types are not modelled. The same holds for CasperParser.TypeCountsTotal, CasperParser.SummaryCounts and the `types` of CasperParser.BuildSummary.
- AtomParser.NormalizeConfidence: a confidence is an integer or missing, so `Math.round` of a fraction is not modelled.
- `textwrap.dedent` in `indent_block` is left out: every line is stripped afterwards, so it changes nothing.
- StudioServer.ListResultFilesMeaning: names are ordered by code point. JavaScript's default `sort` compares UTF-16 code units, which differs only for characters outside the Basic Multilingual Plane.
- StudioServer.RunArgs: the thread count is an integer request field. `Number(...)` of other JSON values is not modelled. A window bound given as JSON `null` is treated as absent, whereas the server would write `null` into the window argument.
- The `!appName` check of `/api/run` is not modelled: the name always falls back to `lung_cancer`, so the check never fires.
- The rest of `studio/server/index.js` is not part of this model: routing, `readdir`, `spawn`, the latest-file choice by modification time, and the responses.
- `studio/src/services/casperService.ts`, the React components, hooks and contexts, and `studio/src/utils/time.ts` are not part of this model. They are network, UI and date handling.
- ProcessAnswers.ComputeMetaEvents: a report whose `Call` or `Witnesses` is not a list, or whose values are not strings, is not modelled. `str(...)` is the identity on the model's strings.
- MultishotDriver.RunIncremental: the `clingo_args`, the loading of files and the JSON or printed output of the store are not modelled. The `base` grounding is the first request.
- MultishotDriver.Session.ActivateExternals: `assign_external` on an atom that exists but is not external is not modelled. Every existing atom has a truth value.

## Findings

| source | as written | input that shows it | evidently intended | confidence | as-written member | corrected member |
|---|---|---|---|---|---|---|
| studio/src/utils/atomParser.ts:35-42 | `parseInterval` rejects only a NaN start or end; with no comma the end is `undefined`, which `Number.isNaN` does not flag | `(5)`: accepted as an interval from 5 with an undefined end, and `event(a,b,c,(5),2)` is read as an event with no end | an interval needs a start and an end, both numbers | not executed | AtomParser.IntervalWithoutEnd | AtomParser.IntervalRoundTrip |
