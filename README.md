# Tomcat JMX monitor: catalog, discovery, query planning and response pairing

`lib/tomcat_monitor.js` reads Tomcat metrics through the jmxterm JMX client.
One run goes as follows:

1. A static catalog of seventeen metric definitions selects the ones enabled for the requested object type (`context`, `connector` or `webmodule`).
2. The monitor asks the agent for its list of beans.
3. It matches every bean line against the pattern of every enabled metric and records a query target `<bean> <key>` for each match.
4. It writes one `get -b <target>` directive per target into a batch and runs the batch through the agent.
5. It gets back two streams: the values (`key = value;`) on standard output and the echoed bean names (`#mbean = <bean>:`) on standard error.
6. It cleans both streams and requires them to be equally long.
7. It pairs the streams by position. For each pair it re-resolves the metric against the whole catalog by pattern and key, and takes the object name from the pattern's capture group.
8. It filters by object name and prints one `id|value|object|` line per data point.

Any inconsistency ends the run with the `MetricNotFoundError` exit code 8.

The Dafny project models these steps, one module per component:

- `Outcomes`: the option and result types, and the exit code 8.
- `Text`: the JavaScript string built-ins the code relies on: `trim`, `split`, `indexOf`, first-occurrence `replace`, `replace(/\r/g, '')` and `toLowerCase`.
- `Patterns`: the catalog's regular expressions, which are all of the shape `prefix(.*)suffix`. `String.prototype.match` is modelled with unanchored search, the leftmost start, greedy backtracking of `.*`, and `.` refusing line terminators.
- `Catalog`: the catalog and the type mapping.
- `Selector`: the enable loop.
- `Discovery`: the bean discovery.
- `Planner`: the query batch.
- `Parser`: stream cleaning, line cleaning, re-resolution, pairing and the length check.
- `Filter`: the data points and the `match` filter.
- `Formatter`: the `output` writer.
- `Monitor`: one whole run, with the two agent invocations given as parameters.
- `Scenario`: a worked run from bean dump to report.

The catalog and its per-run state are an `array<Metric>`, updated element by element, as the source updates `metrics[i].state` and `metrics[j].mbeans`. Each loop that updates the table or accumulates text is a method. It is proved equal to a function of its inputs, and the properties are proved about those functions. The search loop of `match` (lines 353-363) only computes a truth value and is the recursive function `Filter.AnyTermIn`.

Behaviour of the code that is easy to miss, and that the model keeps:

- The catalog declares seventeen metrics.
- A wrong number of enable tokens is not reported. A missing token reads as `undefined`, which disables its metric, and extra tokens are ignored.
- The filter argument is always split on `;`, because line 131 compares a string with the number `0`. An empty argument becomes the one term `""`, which every name contains.

## Model

| member | source | states |
|---|---|---|
| Catalog.NewCatalog | lib/tomcat_monitor.js:33-56 | the fresh table holds the declared catalog in declaration order |
| Catalog.Definitions | lib/tomcat_monitor.js:36-56 | the catalog holds seventeen definitions, every one disabled and with no targets |
| Catalog.CatalogIdsAreLines | lib/tomcat_monitor.js:36-56 | no metric id holds a line break, so each id prints on one report line |
| Catalog.CatalogGroups | lib/tomcat_monitor.js:35-56 | the entries are declared in five groups, each entry carrying its group's pattern |
| Catalog.GroupPatternsDistinct | lib/tomcat_monitor.js:36-56 | the five group patterns differ pairwise |
| Catalog.GroupKeysDistinct | lib/tomcat_monitor.js:36-56 | no key repeats within a group |
| Catalog.ThreadPoolPatternIsPlain | lib/tomcat_monitor.js:43 | the thread pool pattern's literals hold no newline, carriage return or `$` |
| Catalog.CatalogLayout | lib/tomcat_monitor.js:35-56 | seventeen metrics, all disabled with no targets: five `context`, then nine `connector`, then three `webmodule` |
| Catalog.CatalogPatternsAnchored | lib/tomcat_monitor.js:36-56 | every catalog pattern starts and ends with a non-blank literal, so trimming a bean line never changes what it matches |
| Catalog.CatalogKeysAreWords | lib/tomcat_monitor.js:36-56 | every attribute key is one non-empty word without blanks or newlines |
| Catalog.CatalogPairsDistinct | lib/tomcat_monitor.js:36-56 | no two definitions share both pattern and key |
| Catalog.MapType | lib/tomcat_monitor.js:168-178 | `1`, `2` and `3` map to context, connector and webmodule, each in both directions; every other code maps to no type |
| Selector.Selected | lib/tomcat_monitor.js:142-150 | selection changes only the enabled flag, and only on metrics of the requested type |
| Selector.Select | lib/tomcat_monitor.js:142-150 | the table after the loop is `Selected` of the table before it, with the running counter equal to the number of same-type metrics already passed |
| Selector.RanksIncrease | lib/tomcat_monitor.js:143-149 | two metrics of one type get strictly increasing token positions in table order |
| Selector.RankCovers | lib/tomcat_monitor.js:143-149 | every token position below the size of a type's group belongs to a metric of that type |
| Selector.SelectedByRank | lib/tomcat_monitor.js:143-149 | token `j` drives exactly one metric of the requested type, and that metric is enabled iff the token is `"1"` |
| Selector.CatalogRanks | lib/tomcat_monitor.js:143-149 | in the declared catalog the token positions are 0-4, 0-8 and 0-2 within the three groups |
| Selector.CatalogSelection | lib/tomcat_monitor.js:142-150 | type 1, 2 or 3 with tokens `t` enables metric `j`, `5+j` or `14+j` iff `t[j] == "1"` |
| Discovery.DumpLines | lib/tomcat_monitor.js:197 | the trimmed dump splits into at least one line, and no line holds a newline |
| Discovery.Discovered | lib/tomcat_monitor.js:199-217 | discovery only appends to target lists, and leaves disabled or other-type metrics unchanged |
| Discovery.Discover | lib/tomcat_monitor.js:197-217 | the table after the nested loops is `Discovered` of the table before them over the dump's lines |
| Discovery.ScanDump | lib/tomcat_monitor.js:204-215 | one metric's pass appends, in line order, the target of every line its pattern matches |
| Discovery.TargetsSound | lib/tomcat_monitor.js:205-215 | every target comes from a line of the dump that the metric's pattern matches, as that line trimmed plus a blank and the key |
| Discovery.TargetsAppend | lib/tomcat_monitor.js:205-215 | the targets of a concatenated dump are the targets of each part, in order |
| Discovery.TargetsCount | lib/tomcat_monitor.js:205-215 | exactly one target per matching line |
| Discovery.TargetShape | lib/tomcat_monitor.js:212 | a target of a line and a key without newlines holds no newline |
| Discovery.TargetsHaveNoNewline | lib/tomcat_monitor.js:205-215 | no target holds a newline, so each target fits on one directive line |
| Planner.BuildBatch | lib/tomcat_monitor.js:219-232 | the accumulated batch is the template replacement of line 229 applied to every target, in catalog order and then list order; when no target holds `$` it is the literal batch `Batch` |
| Planner.DirectivesAppend | lib/tomcat_monitor.js:221-231 | the batch of two target lists is the batch of each, in order |
| Planner.QueryOrderLength | lib/tomcat_monitor.js:221-231 | the query order holds exactly the total number of targets |
| Planner.DirectiveLines | lib/tomcat_monitor.js:225-231 | read back line by line, a batch is `get -b <target>` for each target in order, followed by an empty piece |
| Planner.BatchLines | lib/tomcat_monitor.js:219-232 | the table's batch has one `get -b` line per target, the `k`-th asking for the `k`-th target of the query order |
| Planner.QueryOrderNoNewline | lib/tomcat_monitor.js:221-231 | when no recorded target holds a newline, neither does any entry of the query order |
| Planner.TemplateDirective | lib/tomcat_monitor.js:228-229 | the directive line 229 builds equals the literal `get -b <target>` line whenever the target holds no `$` |
| Planner.Substitute | lib/tomcat_monitor.js:229 | the replacement text leaves a target without `$` unchanged |
| Planner.TemplateBatchLiteral | lib/tomcat_monitor.js:219-232 | when no target of the table holds `$`, the batch line 229 builds is the literal batch |
| Planner.SubstitutePrefix | lib/tomcat_monitor.js:229 | text without `$` passes through the replacement unchanged |
| Planner.DollarAmpersandCorrupts | lib/tomcat_monitor.js:229 | a target holding `$&` is written with `{MBEAN}` in place of those two characters, which differs from the literal directive |
| Patterns.Find | lib/tomcat_monitor.js:208 | the reported span is the leftmost match with the longest capture; with no span, no match exists anywhere |
| Patterns.Match | lib/tomcat_monitor.js:208 | a capture never holds a line terminator |
| Patterns.MatchIff | lib/tomcat_monitor.js:208-210 | `match` is non-null exactly when the pattern matches somewhere in the line |
| Patterns.FindExactly | lib/tomcat_monitor.js:208 | the leftmost-greedy span is unique, and it is the one found |
| Patterns.Capture | lib/tomcat_monitor.js:322 | the capture has the span's length, and prefix, capture and suffix occur side by side at the span's start |
| Patterns.MatchOccurrence | lib/tomcat_monitor.js:317 | a successful match means the subject holds prefix, capture and suffix side by side |
| Patterns.OccurrenceMatches | lib/tomcat_monitor.js:317 | conversely, any such occurrence with a break-free capture makes `match` succeed |
| Patterns.MatchesInWindow | lib/tomcat_monitor.js:309-317 | a match inside a window of the subject is a match of the subject shifted by the window's offset, and back |
| Patterns.MatchWithinTrim | lib/tomcat_monitor.js:309-317 | a match of an anchored pattern lies inside the trimmed part of the subject |
| Patterns.MatchTrimmed | lib/tomcat_monitor.js:309-317 | an anchored pattern matches a trimmed line exactly as it matches the line, with the same capture |
| Parser.StreamLines | lib/tomcat_monitor.js:272-276 | a stream without carriage returns splits into at least one line, and no line holds a newline |
| Parser.NonEmpty | lib/tomcat_monitor.js:280-287 | the cleaned lines are no more than the input and none is empty |
| Parser.RemoveEmpty | lib/tomcat_monitor.js:280-287 | the in-place splice loop with its step back leaves exactly the non-empty lines, in order |
| Parser.NonEmptyAppend | lib/tomcat_monitor.js:280-287 | cleaning distributes over concatenation, so relative order is kept |
| Parser.NonEmptyCounts | lib/tomcat_monitor.js:280-287 | the empty line never survives, and every other line survives as often as it occurs |
| Parser.CleanValues | lib/tomcat_monitor.js:272-287 | the cleaned value stream holds no empty line |
| Parser.CleanValuesOneLine | lib/tomcat_monitor.js:272-287 | no cleaned value line holds a newline |
| Parser.CleanEchoes | lib/tomcat_monitor.js:273-277 | the cleaned echo stream is the split stream without its first line, and nothing else is dropped |
| Parser.CleanStreams | lib/tomcat_monitor.js:272-287 | the two cleaning loops compute `CleanValues` and `CleanEchoes` |
| Parser.ParseValueLine | lib/tomcat_monitor.js:300-304 | the cleaned key and value hold no blank |
| Parser.ValueLineRoundTrip | lib/tomcat_monitor.js:300-304 | the answer `key = value;` cleans back to that key and value |
| Parser.ParseEchoLine | lib/tomcat_monitor.js:307-309 | the cleaned bean neither starts nor ends with whitespace |
| Parser.ValueLineOneLine | lib/tomcat_monitor.js:300-304 | a value read from a line without a newline holds none |
| Parser.EchoLineRoundTrip | lib/tomcat_monitor.js:307-309 | the echo `#mbean = <bean>:` cleans back to the trimmed bean |
| Parser.ResolveFrom | lib/tomcat_monitor.js:315-325 | the first metric from a position on whose pattern matches the bean and whose key is the key, or none if no such metric exists |
| Parser.Resolve | lib/tomcat_monitor.js:315-325 | the first metric of the whole table, whatever its type or state, that matches pattern and key; none exactly when no metric does |
| Parser.FindMetric | lib/tomcat_monitor.js:315-325 | the scan with `break` finds `Resolve`'s metric, and its object is that pattern's non-null capture |
| Parser.ResolveUnique | lib/tomcat_monitor.js:315-325 | the first-claim characterisation determines the resolved metric: an index claimed first, or none when nothing claims |
| Parser.ResolvePair | lib/tomcat_monitor.js:298-326 | cleaning one value line and one echo line and looking up their metric gives that index's candidate data point, or none |
| Parser.CandidatesAt | lib/tomcat_monitor.js:296-325 | the streams are paired by position: the candidate of index `i` is that of the two lines at `i` |
| Parser.Collect | lib/tomcat_monitor.js:327-330 | every failure carries code 8 (that an unresolved index fails is stated by `Parser.CollectExactly`) |
| Parser.CollectExactly | lib/tomcat_monitor.js:296-330 | collecting succeeds iff every index resolves, and then keeps every point in stream order |
| Parser.Parse | lib/tomcat_monitor.js:270-343 | a length mismatch of the cleaned streams fails with code 8, and every failure carries code 8 |
| Parser.PairAndFilter | lib/tomcat_monitor.js:296-340 | every failure of pairing carries code 8 |
| Parser.ParseExactly | lib/tomcat_monitor.js:289-340 | the parse succeeds iff the streams clean to equal length and every index resolves; it then yields the filtered points in stream order |
| Parser.CollectSwap | lib/tomcat_monitor.js:296-330 | collecting two candidates in either order succeeds alike and reverses the points |
| Parser.SwappedResponses | lib/tomcat_monitor.js:296-340 | a response in swapped order resolves each value to the same metric it had before |
| Parser.LockStep | lib/tomcat_monitor.js:205-325 | when metric `j` discovered a line and the agent answers its target, the pair resolves to a metric no later than `j` with the same key, the value and that metric's capture of the line |
| Parser.PairLines | lib/tomcat_monitor.js:296-340 | the pairing loop computes `PairAndFilter`, stopping with code 8 at the first unresolved index |
| Parser.CandidateOneLine | lib/tomcat_monitor.js:296-325 | on a table whose ids hold no newline, the data point of a newline-free value line prints on one line |
| Parser.ParsedPointsAreLines | lib/tomcat_monitor.js:270-340 | on such a table, every data point of a successful parse prints on one line |
| Parser.ParseOutput | lib/tomcat_monitor.js:270-343 | the whole of `parseOutput` on the table computes `Parse` |
| Filter.AnyTermIn | lib/tomcat_monitor.js:353-363 | true iff some trimmed, lower-cased term occurs in the trimmed, lower-cased name |
| Filter.Matches | lib/tomcat_monitor.js:348-364 | an empty list or a null name passes; otherwise the name passes iff some term occurs in it |
| Filter.FilterTerms | lib/tomcat_monitor.js:131 | the argument always yields at least one term |
| Filter.EmptyFilterPassesAll | lib/tomcat_monitor.js:131 | an empty argument becomes `[""]`, and every name passes it |
| Filter.FilterIgnoresCase | lib/tomcat_monitor.js:357 | the term `ROOT` selects the object `root-app` |
| Filter.NormalizeCaseless | lib/tomcat_monitor.js:357 | a name or term compares alike whatever the case of its letters |
| Filter.MatchesIgnoresCase | lib/tomcat_monitor.js:348-364 | changing the case of the object name or of any term never changes whether the name passes |
| Filter.MatchesLowered | lib/tomcat_monitor.js:348-364 | a lower-cased object name passes exactly when the name does |
| Filter.Keep | lib/tomcat_monitor.js:332-339 | every kept point is one of the input and passes the filter |
| Filter.KeepAll | lib/tomcat_monitor.js:332-339 | when every point passes, every point is kept in order |
| Filter.KeepWithoutFilter | lib/tomcat_monitor.js:350-351 | an empty filter list keeps every point |
| Filter.KeepAppend | lib/tomcat_monitor.js:332-339 | filtering goes point by point: it distributes over concatenation |
| Formatter.Output | lib/tomcat_monitor.js:405-424 | the field-by-field loop writes `Render` of the data |
| Formatter.Render | lib/tomcat_monitor.js:405-424 | the report is empty exactly when there is no data point |
| Formatter.Line | lib/tomcat_monitor.js:413-418 | a point's line holds a newline exactly when one of its id, value text or object text does |
| Formatter.PartialStep | lib/tomcat_monitor.js:409-423 | each point extends the output by its line, plus a newline unless it is the last point |
| Formatter.RenderSplits | lib/tomcat_monitor.js:405-424 | the report splits on newlines back into exactly one line per point, in order |
| Formatter.OneLinePointLine | lib/tomcat_monitor.js:413-418 | a point whose fields hold no line break prints as one line |
| Formatter.RenderOneLinePoints | lib/tomcat_monitor.js:405-424 | a report of such points splits back into exactly one line per point |
| Formatter.LineFields | lib/tomcat_monitor.js:413-418 | a line splits on the bar separator into id, value (`undefined` when missing), object name (empty when null) and an empty tail |
| Monitor.EnableTokens | lib/tomcat_monitor.js:119 | the enable argument always yields at least one token |
| Monitor.Prepared | lib/tomcat_monitor.js:142-217 | the table after selection and discovery still has one entry per catalog metric |
| Monitor.PreparedKeepsDefinitions | lib/tomcat_monitor.js:142-217 | selection and discovery change only the enabled flag and the targets of each catalog entry |
| Monitor.PreparedTargetsAreLines | lib/tomcat_monitor.js:197-217 | every target a run records is free of newlines |
| Monitor.PreparedBatchLines | lib/tomcat_monitor.js:197-232 | the literal batch of a run has one `get -b` line per recorded target, in query order, then an empty tail |
| Monitor.PreparedReportLines | lib/tomcat_monitor.js:270-424 | every non-empty report of a run splits back on newlines into one line per data point |
| Monitor.Outcome | lib/tomcat_monitor.js:185-343 | every failure of a run exits with code 8, and a failed bean listing always does |
| Monitor.Run | lib/tomcat_monitor.js:112-426 | the imperative pipeline over the table computes `Outcome` |
| Scenario.PoolBeanMatches | lib/tomcat_monitor.js:43 | the thread-pool pattern captures `http-8080` from that connector's bean |
| Scenario.ExampleDiscovery | lib/tomcat_monitor.js:197-217 | a dump holding that bean gives the enabled metric the one target `<bean> maxThreads` |
| Scenario.ExampleBatch | lib/tomcat_monitor.js:219-232 | the batch is the one directive `get -b <bean> maxThreads` |
| Scenario.ExampleAnswer | lib/tomcat_monitor.js:270-343 | the answer `maxThreads = 200;`, with its echo and the empty filter argument, parses to the metric with value `200` and object `http-8080` |
| Scenario.ExampleReport | lib/tomcat_monitor.js:405-426 | that data point prints as the one line `C1`, `200`, `http-8080`, each field closed by a bar, with no newline |
| Scenario.RunArguments | lib/tomcat_monitor.js:119-131 | the arguments `1`, `2` and the empty filter give the tokens `["1"]`, the connector type and the one term `""` |
| Scenario.SelectsMaxThreads | lib/tomcat_monitor.js:142-150 | token `1` for type `2` enables the first connector metric |
| Scenario.MaxThreadsEntry | lib/tomcat_monitor.js:36-43 | the catalog's entry 5 is `2560:Max Threads:4`, the thread pool pattern with key `maxThreads`, and no earlier key starts with `m` |
| Scenario.PoolTargets | lib/tomcat_monitor.js:205-215 | the pool bean dump gives a thread pool metric with key `maxThreads` the one target `<bean> maxThreads` |
| Scenario.PreparedMaxThreads | lib/tomcat_monitor.js:142-217 | on the declared catalog the run records that one target for `2560:Max Threads:4` and none for any other metric |
| Scenario.QueryOrderOnly | lib/tomcat_monitor.js:221-231 | when only one metric has targets, the query order is its target list |
| Scenario.CatalogBatch | lib/tomcat_monitor.js:219-232 | the batch line 229 builds for that run is the one directive `get -b <bean> maxThreads` |
| Scenario.ResolvesToMaxThreads | lib/tomcat_monitor.js:315-325 | on any table with the declared definitions, the pool bean and key `maxThreads` resolve to entry 5 |
| Scenario.AnswerOnCatalog | lib/tomcat_monitor.js:270-343 | on such a table the answer parses to `2560:Max Threads:4` with value `200` and object `http-8080` |
| Scenario.CatalogAnswer | lib/tomcat_monitor.js:270-343 | so does the table of that run |
| Scenario.RenderMaxThreads | lib/tomcat_monitor.js:405-424 | that data point prints as the one line `2560:Max Threads:4`, `200`, `http-8080`, each field closed by a bar |
| Scenario.ExampleOutcome | lib/tomcat_monitor.js:112-426 | the whole run with enable `1`, type `2`, the empty filter, the pool bean dump and the answer `maxThreads = 200;` reports the one line `2560:Max Threads:4`, `200`, `http-8080`, each field closed by a bar |
| Text.Trim | lib/tomcat_monitor.js:197 | the result is the subject with its leading and trailing whitespace removed, and it neither starts nor ends with whitespace |
| Text.TrimIdempotent | lib/tomcat_monitor.js:212-309 | trimming twice is trimming once |
| Text.TrimCaseless | lib/tomcat_monitor.js:357 | trimming cuts strings that differ only in case at the same places |
| Text.Split | lib/tomcat_monitor.js:275-276 | at least one piece, and no piece holds the separator |
| Text.SplitKeepsOut | lib/tomcat_monitor.js:275-276 | a character absent from the text is absent from every piece |
| Text.SplitJoin | lib/tomcat_monitor.js:275-276 | splitting undoes joining when no piece holds the separator |
| Text.IndexOf | lib/tomcat_monitor.js:357 | the first occurrence of the pattern, or none when it occurs nowhere |
| Text.ContainsIff | lib/tomcat_monitor.js:357 | `indexOf(...) !== -1` holds iff the pattern occurs somewhere |
| Text.ReplaceFirst | lib/tomcat_monitor.js:300-307 | without an occurrence the text is unchanged; with one, the length changes by the replacement's length minus the pattern's, and no new character appears beyond the replacement's |
| Text.ReplaceFirstAt | lib/tomcat_monitor.js:300-307 | only the first occurrence is replaced: the text before it and after the pattern is kept |
| Text.RemoveAll | lib/tomcat_monitor.js:272-273 | no carriage return is left, and the result is no longer than the input |
| Text.RemoveAllAbsent | lib/tomcat_monitor.js:272-273 | text without a carriage return is unchanged |
| Text.RemoveAllCounts | lib/tomcat_monitor.js:272-273 | every other character is kept as often as it occurs, and none is removed |
| Text.RemoveAllAppend | lib/tomcat_monitor.js:272-273 | removal distributes over concatenation, so the kept characters stay in order |
| Text.LowerChar | lib/tomcat_monitor.js:357 | ASCII capitals map to their lower-case letters, and every other character is unchanged |
| Text.LowerIdempotent | lib/tomcat_monitor.js:357 | lower-casing twice is lower-casing once, and it changes a string only in the case of letters |
| Text.LowerCaseless | lib/tomcat_monitor.js:357 | strings that differ only in case lower-case alike |

## Left out

- Running jmxterm through `exec`, the 20-second timeout and the command templates (lines 60-65, 187-189, 252-253, 369-397) are not modelled. The two agent invocations are parameters of `Monitor.Run`: the bean listing as an `AgentRun` value, and the value query as a function of the batch text.
- Writing the batch to a randomly named file and deleting it (lines 243-254) is not modelled. That includes the write error, which would also exit with code 8.
- The argument count check, which exits with code 3 (lines 97-105), is not modelled. Neither is the stripping of double quotes from the other arguments (lines 114-116), nor host, port, user name and password, which only feed the command templates.
- Console output and process exit (lines 73-91, 426, 435-447) are not modelled. A run ends in `Err(8)` instead of `errorHandler`. `console.log` adds a newline after the report, which `Formatter.Render` does not include.
- Only the catalog's own regular expressions are modelled, all of the form `prefix(.*)suffix`. General regular expression semantics are out of scope.
- Text.Lower: `toLowerCase` is modelled for ASCII letters only; other Unicode case mappings are not captured.
- Strings are sequences of characters, so JavaScript's UTF-16 code units are not distinguished from characters. `trim` uses the ECMAScript whitespace and line-terminator sets.
- `metric.object !== null` (line 321) always holds for the catalog. The object name is therefore always the capture, while `Filter` and `Formatter` still accept a missing name.
- Monitor.PreparedBatchLines: states the line structure of the literal batch `Planner.Batch`. The batch a run sends is that batch only when no recorded target holds `$` (`Planner.TemplateBatchLiteral`); otherwise line 229 rewrites the target, as the Findings table shows.
- Parser.LockStep: proves resolution to a metric no later than `j` with the same key, not to `j` itself. Another definition with the same key and a different pattern that also matches the line would win, and the code does nothing to rule that out.

## Findings

| source | as written | input that shows it | evidently intended | confidence | as-written member | corrected member |
|---|---|---|---|---|---|---|
| lib/tomcat_monitor.js:229 | `cmd.replace(/{MBEAN}/g, mbean)` reads `$$`, `$&`, `` $` `` and `$'` in the bean as replacement patterns | a bean line holding `$&`, e.g. `a$&b`, yields the directive `get -b a{MBEAN}b ...` | the target inserted literally, one `get -b <target>` line per target | not executed | Planner.DollarAmpersandCorrupts | Planner.BatchLines |

The run itself (`Planner.BuildBatch`, `Monitor.Outcome`) follows line 229 as written, through `Planner.TemplateBatch`. `Planner.Directive` and `Planner.Batch` are the corrected definition, and `Planner.BatchLines` is the property proved about it. `Planner.TemplateBatchLiteral` shows that the two batches agree whenever no target holds `$`.
