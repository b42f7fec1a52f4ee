# agent-block, verified

A Dafny model of the parts of agent-block whose correctness is not visible
from any single function, with proofs over all inputs, all runs and all
interleavings. `dafny verify dfyconfig.toml` checks the whole project.

| component | modules | main result |
|---|---|---|
| `std.fs.edit` / `std.fs.rollback` | `Lines`, `Splice`, `EditEngine`, `FileStore`, `EditHost`, `StableSort` | the sorted, bottom-up, in-place splice is the simultaneous substitution, written exactly for acceptable batches, and undone one level by rollback |
| Lua/JSON values | `LuaJson`, `LuaScalars`, `LuaReach`, `LuaOrder` | the two converters are inverse up to number narrowing, with one depth limit, on heaps with sharing and cycles; exactly when a conversion succeeds, and exactly when the order of `pairs` shows in it |
| server-sent events | `Delivery`, `BlankLineCut`, `Sse` | the reader's behaviour does not depend on how the text is cut into chunks |
| history and paged reader | `EventLog`, `LogReader` | binary-searched and paged reads lose and repeat nothing |
| process groups | `ProcessGroups` | who is signalled and what `killed` means, over every interleaving |
| MCP | `NotifyChannel`, `Mcp`, `McpRuns` | a notification reaches the callback of the server that sent it, in order, or is dropped because the queue was full |
| lookups | `BusDispatch`, `InstallTools`, `BlockRegistry` | each layered or cached lookup agrees with one plain table |

Reading the modules: a `Step` and `Run` pair is a state machine and its
runs; fields described as a history are kept for stating properties and
decide nothing. Methods follow the loops of the source and are tied by
their contracts to the functions the theorems are about. Operations that
the outside world decides (a write that fails, a callback that raises, a
handshake that times out, a probe's answer) are parameters or steps, so the
theorems hold for every outcome.

## Findings

- `fs.rs:114-115` says an edit does not add or drop a final newline. It can
  add one: `EditHost.TrailingNewlineCanAppear`; `EditHost.NextReadByRequest`
  says exactly for which requests.
- A rollback removes the snapshot before it writes, so one whose write fails
  cannot be retried: `FileStore.FailedRollbackLosesSnapshot`.
- `handler.rs:245-248` says the bound makes the producer wait. The code
  drops instead, exactly when the queue is full: `NotifyChannel.SendKeeps`,
  and `Mcp.OneTooMany` for a run that gets there.
- `bus.on` and `bus.on_any` write the handler VM before they look for the
  bus, so a call made after `bus.serve` reports an error and still
  replaces the handler:
  `BusDispatch.LateRegistrationEffect`.
- An exec whose group a sweep removed still forgets that id when it returns.
  If the system has reissued the id by then, both execs can report wrongly:
  `ProcessGroups.AnyReissueCanMisreport`, `ProcessGroups.ReissuedIdMisreports`.
- A kill that waits out its grace period goes on signalling an id whose
  command has ended. If the id is handed out again meanwhile, another command
  gets the signal: `ProcessGroups.KillReachesAnother`;
  `ProcessGroups.KillsReachOnlyPicked` says when that cannot happen.
- Sequence numbers saturate at `u64::MAX`. The exact effect on order,
  incremental reads and paged reads is stated.
- A table with the keys `5` and `"5"` becomes one thing or another by the
  order of `pairs`: `LuaOrder.SharedTextIsAmbiguous`;
  `LuaOrder.OrderShowsExactly` says exactly which values are like that.
- A name that a module answers only through an `__index` function is not
  installed, as `mod.rs:143-147` says; `InstallTools.WalkAgreesExactly` says
  exactly on which names the install and an ordinary lookup differ.
- The tool-module install never returns on a cyclic `__index`:
  `InstallTools.RepeatNeverEnds`.

## Model

| member | source | states |
|---|---|---|
| `Lines.JoinSplitLines` | crates/agent-block-core/src/bridge/fs.rs:116-135 | Splitting any content into lines and joining them again gives the content back, for every string. |
| `Lines.SplitJoinLines` | crates/agent-block-core/src/bridge/fs.rs:116-135 | What the next read of written-out lines sees, in every case; it is the same lines and the same trailing-newline flag if and only if the list is non-empty and does not end, unterminated and of several lines, in an empty one. |
| `Lines.SplitJoin` | crates/agent-block-core/src/bridge/fs.rs:116-135 | Newline-free pieces joined by newlines split into the same pieces. |
| `Lines.JoinEnds` | crates/agent-block-core/src/bridge/fs.rs:129-135 | A joined text ends in a newline exactly when its last of several lines is empty. |
| `EditEngine.Validate` | crates/agent-block-core/src/bridge/fs.rs:376-441 | The loop that never stops early computes the accepted edits and the failures, each checked against the lines as read. |
| `EditEngine.ValidationMeans` | crates/agent-block-core/src/bridge/fs.rs:390-441 | The same in line numbers and lines alone: an edit is accepted exactly when the range is in the file and its lines are, one for one, those of the text it expects; a refusal says bad range exactly for a start of 0 or an end before it, out of range (with the file length) exactly for a good range past the end, and otherwise a mismatch with exactly the lines that are there; no failing edit is left out. |
| `EditEngine.PassesMeans` | crates/agent-block-core/src/bridge/fs.rs:420-421 | A request passes exactly when the lines it names are those of the text it expects. |
| `EditEngine.RefusalMeans` | crates/agent-block-core/src/bridge/fs.rs:397-434 | Why a request is refused, and what the refusal carries. |
| `EditEngine.ShareLineMeans` | crates/agent-block-core/src/bridge/fs.rs:480-487 | Two ranges overlap exactly when some line is in both. |
| `EditEngine.ValidationPartitions` | crates/agent-block-core/src/bridge/fs.rs:376-441 | Every position of the batch is in exactly one of the two lists; an accepted one carries the caller's own change, a refused one the right reason, range, actual text and file length; both lists are in the caller's order without repeats. |
| `EditEngine.NoFailures` | crates/agent-block-core/src/bridge/fs.rs:390-474 | There is no failure exactly when every edit fits the file and finds the text it expects. |
| `EditEngine.AllAccepted` | crates/agent-block-core/src/bridge/fs.rs:390-441 | With nothing refused, the accepted list is the batch itself, position by position. |
| `EditEngine.FirstClash` | crates/agent-block-core/src/bridge/fs.rs:480-487 | The pair reported is the first adjacent pair, in line order, that touches, and none is reported only if no adjacent pair does. |
| `EditEngine.FindClash` | crates/agent-block-core/src/bridge/fs.rs:480-487 | The walk over neighbouring pairs finds that first clash. |
| `EditEngine.OverlapCheckExact` | crates/agent-block-core/src/bridge/fs.rs:476-487 | The adjacent-pair check on the sorted list refuses a batch if and only if some two of its edits, anywhere in the caller's list, share a line; what it lets through is laid out with no two edits touching. |
| `EditEngine.SameStartClashes` | crates/agent-block-core/src/bridge/fs.rs:478-487 | Two edits with the same start line always count as overlapping. |
| `EditEngine.BatchIsSimultaneous` | crates/agent-block-core/src/bridge/fs.rs:478-498 | Sorting a disjoint batch and splicing it bottom up in place equals substituting all its ranges at once in the original lines, a definition that knows nothing of sorting, order or shifted indices. |
| `EditEngine.UntouchedLineLands` | crates/agent-block-core/src/bridge/fs.rs:489-498 | The result is as long as the original plus all length changes, and each line no edit names is found at its old index plus the summed changes of the edits before it, summed in the caller's own order. |
| `EditEngine.ReplacementLands` | crates/agent-block-core/src/bridge/fs.rs:489-498 | Every replacement stands whole and in order where the edits above it have moved its range. |
| `EditEngine.ReplacementText` | crates/agent-block-core/src/bridge/fs.rs:492-496 | A replacement's lines, joined, are its text, and there are none exactly when the text is empty. |
| `EditEngine.SpliceKeepsLines` | crates/agent-block-core/src/bridge/fs.rs:491-498 | No line of a spliced file holds a newline, at any moment of the loop. |
| `Splice.SpliceBottomUp` | crates/agent-block-core/src/bridge/fs.rs:490-498 | The in-place loop from the last edit to the first computes the specification's buffer after every step. |
| `Splice.SpliceIsSimultaneous` | crates/agent-block-core/src/bridge/fs.rs:490-498 | For any sequence and any laid-out patches the bottom-up buffer is the simultaneous substitution. |
| `Splice.UntouchedLands` | crates/agent-block-core/src/bridge/fs.rs:490-498 | Where each untouched element lands, for any element type. |
| `Splice.PatchLands` | crates/agent-block-core/src/bridge/fs.rs:490-498 | Where each replacement lands, for any element type. |
| `Splice.ResultEnds` | crates/agent-block-core/src/bridge/fs.rs:490-498 | What the result ends with, found from the bottom of the patches, for any element type. |
| `StableSort.SortSorts` | crates/agent-block-core/src/bridge/fs.rs:478-479 | The sort used for edits and blocks leaves its result in order, for any total preorder. |
| `StableSort.SortKeepsElements` | crates/agent-block-core/src/bridge/fs.rs:478-479 | It is a permutation. |
| `StableSort.SortIsStable` | crates/agent-block-core/src/bridge/fs.rs:478-479 | Elements that tie keep the order they were listed in, as `sort_by_key` promises. |
| `StableSort.SortIgnoresOrder` | crates/agent-block-core/src/bridge/fs.rs:478-479 | Where no two different elements tie, the input order does not show in the result. |
| `EditHost.PrepareLines` | crates/agent-block-core/src/bridge/fs.rs:376-498 | Validation, empty-batch check, overlap check and splice, in that order, decide a batch as the specification does. |
| `EditHost.Prepare` | crates/agent-block-core/src/bridge/fs.rs:363-500 | Everything `edit` does between its read and its write, the base check first. |
| `EditHost.WrittenExactlyWhenAcceptable` | crates/agent-block-core/src/bridge/fs.rs:363-502 | A batch is written if and only if the base matches, the batch is not empty, every edit finds its expected text and no two edits share a line; what is written is the simultaneous substitution with the trailing newline as it was. |
| `EditHost.WrittenExactlyWhenEveryEditHolds` | crates/agent-block-core/src/bridge/fs.rs:363-502 | The same without the words of the validation: the base is empty or the version read, there is an edit, each names lines of the file that are those of the text it expects, and no line is named by two. |
| `EditHost.WhyRefused` | crates/agent-block-core/src/bridge/fs.rs:365-487 | Which refusal a batch gets: a stale base before anything else, with both versions; then every failing edit; then an empty batch; then two different positions of the batch that name a line in common, the upper one first. |
| `EditHost.OrderDoesNotMatter` | crates/agent-block-core/src/bridge/fs.rs:476-502 | Two listings of the same edits are both written or both refused, and if written leave the same content and count. |
| `EditHost.NextReadSeesTheEdit` | crates/agent-block-core/src/bridge/fs.rs:490-502 | The next read of an edited file sees exactly the edited lines and the same trailing-newline flag if and only if not every line was deleted and no unterminated file of several lines was left ending in an empty one; what it sees in those two cases is stated too. |
| `EditHost.NextReadByRequest` | crates/agent-block-core/src/bridge/fs.rs:390-502 | The same condition read off the content and the request before the call: some line is left, and the file was terminated, or one line is left, or the bottom line left is not empty. The bottom line is the last line if no edit ends there, the last piece of the text of the edit that does, or, where that edit deletes, what the lines above it leave. The flag alone is kept under that condition or if no line is left. |
| `EditHost.LeftByBatch` | crates/agent-block-core/src/bridge/fs.rs:489-498 | How many lines an accepted batch leaves and which one is last, counted and found from the requests alone. |
| `EditHost.LastPieceEmpty` | crates/agent-block-core/src/bridge/fs.rs:492-496 | The last piece of a text is empty exactly when the text is empty or ends in a newline. |
| `EditHost.Host.Edit` | crates/agent-block-core/src/bridge/fs.rs:359-513 | One call over files and snapshots: which reply, which file content, which snapshot, for a missing file, a refusal, a failed write and a success. |
| `EditHost.Host.Rollback` | crates/agent-block-core/src/bridge/fs.rs:521-538 | One rollback: the snapshot is given up first, then written back. |
| `EditHost.AllOrNothing` | crates/agent-block-core/src/bridge/fs.rs:359-513 | A missing file, or a batch that is not acceptable, leaves both stores unchanged; an acceptable batch whose write succeeds is applied in full, snapshots the content before it, and answers the version that the next call's base must name; one whose write fails raises, takes no snapshot and touches no other file. |
| `EditHost.TrailingNewlineCanAppear` | crates/agent-block-core/src/bridge/fs.rs:114-135 | Against the comment on `split_lines`: an accepted edit of an unterminated file can leave it terminated. |
| `FileStore.SnapshotIsPendingEdit` | crates/agent-block-core/src/bridge/fs.rs:502-538 | In every run of edits, refused edits, rollbacks, outside writes and failed writes on any paths, a path has a snapshot exactly when a successful edit of it has had no rollback attempt since, and it is the content that edit found. |
| `FileStore.RollbackRestores` | crates/agent-block-core/src/bridge/fs.rs:519-538 | After every run a rollback succeeds exactly when such an edit is pending, restores the content from just before it, and touches no other path. |
| `FileStore.RollbackIsOneLevel` | crates/agent-block-core/src/bridge/fs.rs:524-538 | After a rollback attempt, another reports `no_snapshot` and changes nothing until an edit of the path succeeds. |
| `FileStore.OtherPathsUntouched` | crates/agent-block-core/src/bridge/fs.rs:502-538 | A run that names only other paths leaves a path's file and snapshot alone. |
| `FileStore.FailedRollbackLosesSnapshot` | crates/agent-block-core/src/bridge/fs.rs:525-531 | A rollback whose write fails has lost the snapshot: the retry reports `no_snapshot`. It touches no other file or snapshot. |
| `Sse.ReadSse` | crates/agent-block-core/src/bridge/http.rs:218-259 | For every chunking of the same text, every callback behaviour and either end of stream: the callbacks, their order, where `[DONE]` or a raising callback stops the reader and whether a read error is reported are those of the whole text cut leftmost at blank lines, the unfinished tail dropped. The loop keeps the buffer equal to the uncut tail of what has arrived, and ends. |
| `Sse.ReadTextMeans` | crates/agent-block-core/src/bridge/http.rs:218-259 | What that reading is, without the words of the reader: with a callback, the values of the `data:` lines up to the last blank line are delivered in order up to the text `[DONE]` or to the call that raises; with none, only that text stops anything; the read fails exactly when the stream does and nothing stopped it first. |
| `Sse.DataOfMeans` | crates/agent-block-core/src/bridge/http.rs:241-245 | A line has a value exactly when it starts with `data:`; the value is what stands between the white space around the rest, and neither starts nor ends with white space. |
| `Sse.DataOfTrims` | crates/agent-block-core/src/bridge/http.rs:241-245 | The space that may follow `data:` makes no difference. |
| `Sse.ConsumedEnds` | crates/agent-block-core/src/bridge/http.rs:236-238 | The text up to the last cut is empty or ends in a blank line. |
| `Sse.WhitespaceMeans` | crates/agent-block-core/src/bridge/http.rs:245-245 | What `trim` removes is the 25 characters Unicode lists as White_Space. |
| `Sse.Drain` | crates/agent-block-core/src/bridge/http.rs:236-255 | The inner loop delivers exactly what the complete blocks carry and leaves the tail, which holds no blank line. |
| `Sse.ReadBlock` | crates/agent-block-core/src/bridge/http.rs:240-254 | One block: each `data:` line trimmed and delivered on its own, stopping at the sentinel or a raising callback. |
| `Sse.StopIsFinal` | crates/agent-block-core/src/bridge/http.rs:246-251 | Once stopped, no text that would have arrived later makes a difference. |
| `Sse.CarriedIsDataLines` | crates/agent-block-core/src/bridge/http.rs:233-255 | The values delivered are those of the `data:` lines up to the last cut, the text split at every newline without regard to blocks. |
| `Sse.DataIgnoresCr` | crates/agent-block-core/src/bridge/http.rs:240-245 | A carriage return before a newline never shows in a value. |
| `BlankLineCut.CutAnywhere` | crates/agent-block-core/src/bridge/http.rs:233-238 | Cutting what has arrived and going on with its tail plus more text is cutting the whole. |
| `BlankLineCut.FindBlankGrows` | crates/agent-block-core/src/bridge/http.rs:236-238 | A blank line that has arrived stays the leftmost one. |
| `Delivery.FeedAppend` | crates/agent-block-core/src/bridge/http.rs:240-254 | Delivering two batches one after the other is delivering them as one, stops included. |
| `Delivery.FeedMeaning` | crates/agent-block-core/src/bridge/http.rs:245-251 | The calls made are the values in order up to and excluding the first sentinel, or up to and including the first call that raises. |
| `Delivery.FeedSilent` | crates/agent-block-core/src/bridge/http.rs:246-251 | With no callback nothing is called, and the delivery stops exactly at a sentinel. |
| `Wrappers.FilterMapMeans` | crates/agent-block/src/knl.rs:400-402 | A filter-map gives one result for every element that has one, from strictly increasing positions, and nothing else. |
| `Wrappers.OneFilterMap` | crates/agent-block/src/knl.rs:400-402 | That leaves no choice. |
| `LuaJson.LuaToJson` | crates/agent-block-mcp/src/lua_json.rs:88-140 | Terminates on every heap, cyclic ones included; succeeds if and only if everything it follows is convertible within 128 levels; what it returns is the conversion for the order in which `pairs` visits each table, and an encoding of the value; the error is that of the first entry that fails. |
| `LuaScalars.ScalarsToJson` | crates/agent-block-mcp/src/lua_json.rs:95-107 | Every value that is not a table becomes its JSON value, or fails with its own fault, at any depth within 128. |
| `LuaScalars.TooDeepIsAll` | crates/agent-block-mcp/src/lua_json.rs:88-94 | Past 128 levels everything fails, and for the depth alone. |
| `LuaScalars.TablesToJson` | crates/agent-block-mcp/src/lua_json.rs:106-133 | A table with a sequence becomes an array whatever else it holds; else an empty array if its metatable says array; else an object, empty exactly if it has no keys. |
| `LuaScalars.EmptyTables` | crates/agent-block-mcp/src/lua_json.rs:62-73 | An empty table converts unless the word in its metatable cannot be read. |
| `LuaScalars.TableFaults` | crates/agent-block-mcp/src/lua_json.rs:106-133 | What a table is refused with: the fault of the first item that fails, an unreadable tag, or the fault of the first key or value that fails in the order visited. |
| `LuaScalars.KeyTextMeans` | crates/agent-block-mcp/src/lua_json.rs:119-130 | The name each kind of key gives: a string itself, an integer its decimal numeral, a float what it displays as; other keys none, each with its own fault. |
| `LuaScalars.IntTextReads` | crates/agent-block-mcp/src/lua_json.rs:121-121 | An integer key's name is a decimal numeral without leading zeros that, read from left to right, is the integer. |
| `LuaScalars.IntTextsDiffer` | crates/agent-block-mcp/src/lua_json.rs:121-121 | No two integers have one name. |
| `LuaScalars.SharedTexts` | crates/agent-block-mcp/src/lua_json.rs:119-130 | Two different keys with one name, neither a float, are an integer and the string that spells it. |
| `LuaJson.TableToJson` | crates/agent-block-mcp/src/lua_json.rs:106-133 | The branches for a table: a sequence, a tag that says array, an unreadable tag, or keys; each converts, or fails, as the specification says. |
| `LuaJson.ItemsToJson` | crates/agent-block-mcp/src/lua_json.rs:109-115 | The loop over a sequence: all items converted in order, or the error of the first that fails. |
| `LuaJson.FieldsToJson` | crates/agent-block-mcp/src/lua_json.rs:116-132 | The `pairs` loop in a given order: an object in which a text met again has the later value, or the error of the first entry that fails. |
| `LuaJson.PutAllMeans` | crates/agent-block-mcp/src/lua_json.rs:117-131 | Names put one after the other are all there, each with the value it was given last. |
| `LuaJson.ConvertedEncodes` | crates/agent-block-mcp/src/lua_json.rs:88-140 | In every order of `pairs` the result is an encoding of the value. |
| `LuaJson.JsonToLua` | crates/agent-block-mcp/src/lua_json.rs:164-207 | Succeeds if and only if the value is nested at most 128 deep, otherwise fails for depth; the tables built picture the value, empty arrays tagged; tables already there are untouched. |
| `LuaScalars.ScalarsToLua` | crates/agent-block-mcp/src/lua_json.rs:171-185 | Null becomes the sentinel, an integer up to `i64::MAX` that integer, one above it the nearest double, ties to even; every other value itself. |
| `LuaScalars.TablesToLua` | crates/agent-block-mcp/src/lua_json.rs:186-206 | An array becomes a sequence and nothing else, marked as an array exactly when it is empty; an object becomes its names as keys. |
| `LuaScalars.RoundsToNearest` | crates/agent-block-mcp/src/lua_json.rs:178-179 | The double above `i64::MAX` is the nearest, ties to even, and only it. |
| `LuaJson.FieldsToLua` | crates/agent-block-mcp/src/lua_json.rs:199-205 | The same for an object. |
| `LuaJson.RoundTrip` | crates/agent-block-mcp/src/lua_json.rs:75-207 | Into Lua and back: every value of height at most 128 comes back with its numbers narrowed and nothing else changed, so it comes back the same if and only if no integer exceeds `i64::MAX`; every deeper value is refused. |
| `LuaJson.RepresentedConverts` | crates/agent-block-mcp/src/lua_json.rs:88-140 | A picture of a shallow JSON value always converts. |
| `LuaJson.RepresentedEncodes` | crates/agent-block-mcp/src/lua_json.rs:88-207 | Whatever a picture of a value converts to is that value narrowed, nested `[]`, `{}` and nulls included. |
| `LuaJson.TripIsExact` | crates/agent-block-mcp/src/lua_json.rs:174-183 | A narrowed value equals the original if and only if its numbers fit. |
| `LuaJson.TwoTrips` | crates/agent-block-mcp/src/lua_json.rs:75-207 | Two trips in a row: the first succeeds exactly for values of height at most 128, and then the second succeeds and returns the same value, so integers past `i64::MAX` settle after one. |
| `LuaJson.NarrowingSettles` | crates/agent-block-mcp/src/lua_json.rs:174-183 | Narrowing a narrowed value changes nothing. |
| `LuaJson.NarrowedShallow` | crates/agent-block-mcp/src/lua_json.rs:164-207 | Narrowing keeps a value within, or past, the depth limit. |
| `LuaJson.RoundingError` | crates/agent-block-mcp/src/lua_json.rs:174-183 | Settling moves such an integer by at most 1024, and not at all exactly for the multiples of 2048. |
| `LuaJson.EncodedFits` | crates/agent-block-mcp/src/lua_json.rs:88-140 | Every number `lua_to_json` returns is an `i64` or a double already. |
| `LuaJson.EncodedShallow` | crates/agent-block-mcp/src/lua_json.rs:88-140 | Every value it returns is within the depth limit of the way back. |
| `LuaJson.SurvivesTrip` | crates/agent-block-mcp/src/lua_json.rs:88-140 | Every value `lua_to_json` returns is within the limit of the way back and is fixed by narrowing. |
| `LuaJson.OutAndBack` | crates/agent-block-mcp/src/lua_json.rs:75-207 | Out of Lua, into Lua and out again, on any heaps and in any orders of `pairs`: what `lua_to_json` returns comes back the same, with no exception for numbers. |
| `LuaJson.NestingLimit` | crates/agent-block-mcp/src/lua_json.rs:164-170 | A value of any shape met at a depth is accepted if and only if that depth plus its height is at most 128. |
| `LuaOrder.OrderShowsExactly` | crates/agent-block-mcp/src/lua_json.rs:116-132 | For every value that converts: all orders `pairs` may take in each table give the same result if and only if, in every table that is followed, entries whose keys share a text have an encoding in common; and the same condition says when there is only one encoding at all. |
| `LuaOrder.AmbiguityShows` | crates/agent-block-mcp/src/lua_json.rs:116-132 | A value that breaks the condition has two orders of `pairs`, one order a table, with two results. |
| `LuaOrder.EncodingIsUnique` | crates/agent-block-mcp/src/lua_json.rs:116-132 | A value that keeps it has at most one encoding. |
| `LuaOrder.DistinctTextsSuffice` | crates/agent-block-mcp/src/lua_json.rs:117-131 | It is kept wherever no table has two keys with one text. |
| `LuaOrder.UnreachedOrder` | crates/agent-block-mcp/src/lua_json.rs:110-132 | The order of a table that is not reached cannot be seen. |
| `LuaOrder.SharedTextIsAmbiguous` | crates/agent-block-mcp/src/lua_json.rs:119-131 | A table with the keys `5` and `"5"`: the conversion that visits one last gives one value, the conversion that visits the other last gives the other. |
| `LuaJson.FieldNames` | crates/agent-block-mcp/src/lua_json.rs:116-132 | An object's names are exactly the texts of the table's keys. |
| `LuaReach.ConvertsExactlyWhenFit` | crates/agent-block-mcp/src/lua_json.rs:88-140 | The conversion succeeds if and only if everything reached through the entries it follows is within the depth limit and is no reason to fail by itself. |
| `LuaReach.LongPathFails` | crates/agent-block-mcp/src/lua_json.rs:88-94 | A nesting deeper than the limit is refused. |
| `LuaReach.CycleFails` | crates/agent-block-mcp/src/lua_json.rs:88-132 | A cycle reachable through the entries the conversion follows always gives an error. |
| `LuaReach.SelfReferenceFails` | crates/agent-block-mcp/src/lua_json.rs:88-115 | A table that is an item of itself is refused. |
| `EventLog.History.constructor` | crates/agent-block-core/src/knl/history.rs:26-31 | A new history is empty and numbers from 1. |
| `EventLog.History.Append` | crates/agent-block-core/src/knl/history.rs:40-47 | A rejected event changes nothing; an accepted one goes at the end of the old history under the next number, which saturates. |
| `EventLog.History.Since` | crates/agent-block-core/src/knl/history.rs:70-73 | The binary-searched read equals the plain filter, for every number: it is the tail that starts at the first event whose number is at least the one asked for. |
| `EventLog.History.SliceAfter` | crates/agent-block-core/src/knl/history.rs:80-83 | The same for numbers greater than the one asked for. |
| `EventLog.NumbersMean` | crates/agent-block-core/src/knl/history.rs:26-47 | The events are numbered 1, 2, 3 and so on to the largest `u64`, and that from there on. |
| `EventLog.History.Tail` | crates/agent-block-core/src/knl/history.rs:86-89 | The last `n` events, or all if there are fewer. |
| `EventLog.PartitionPoint` | crates/agent-block-core/src/knl/history.rs:71-81 | The binary search finds the end of the leading run. |
| `EventLog.FilterIsSuffix` | crates/agent-block-core/src/knl/history.rs:70-83 | A sequence that splits cleanly filters to its suffix. |
| `EventLog.StrictUpToTheMaximum` | crates/agent-block-core/src/knl/history.rs:40-47 | Numbers strictly increase if and only if there are at most `u64::MAX` events. |
| `EventLog.IncrementalReadsAreWhole` | crates/agent-block-core/src/knl/history.rs:75-83 | Successive `slice_after` reads of a growing history, each from the last number seen, concatenate to the whole history with nothing lost or repeated, if and only if no read before the history is complete meets the largest number. |
| `EventLog.PastTheMaximumIsLost` | crates/agent-block-core/src/knl/history.rs:45-83 | A reader that has seen the largest number is shown nothing more, whatever is appended. |
| `LogReader.ReadWhole` | crates/agent-block/src/knl.rs:342-362 | Terminates on every stream, growing or not; fails exactly when a read it makes fails, and at that read. Otherwise what it returns is the log as its final read saw it, events appended between pages included, if and only if that log is not a whole number of pages ending in an event numbered `u64::MAX`; then that one event comes twice. It is also the pages read, one after the other. |
| `LogReader.ReadPage` | crates/agent-block/src/knl.rs:346-359 | One page after a whole number of pages either is a full page of the log, with the cursor just past it, or completes the log. |
| `LogReader.PageStep` | crates/agent-block/src/knl.rs:346-359 | The same as a fact about the store's read, with the cursor it leads to. |
| `LogReader.MessagesByPage` | crates/agent-block/src/knl.rs:400-402 | Folding messages page by page equals folding the whole, in order, for any message function. |
| `LogReader.ReadMessages` | crates/agent-block/src/knl.rs:316-330 | A reader of messages is told that a read failed exactly when one did, and that there is no session exactly when the final read saw no events. Otherwise there is one record for every event of the log that has a message, in order, and they are those of the very pages that were read, one page after the other. |
| `LogReader.EchoesMean` | crates/agent-block/src/knl.rs:350-359 | The one case in which an event comes twice, in numbers: a whole number of pages of 512 that ends in the largest `u64`. |
| `ProcessGroups.Registry.Remember` | crates/agent-block-core/src/bridge/sh.rs:67-77 | A started group is entered under its id, not killed, over any entry there was. |
| `ProcessGroups.Registry.Forget` | crates/agent-block-core/src/bridge/sh.rs:80-85 | Removes the entry, and answers its flag, or false if there is none. |
| `ProcessGroups.Registry.TakeLabelled` | crates/agent-block-core/src/bridge/sh.rs:88-95 | Marks and answers the group of least id with the label, or answers none exactly when no group has it. |
| `ProcessGroups.KillLabelled` | crates/agent-block-core/src/bridge/sh.rs:109-133 | SIGTERM first; SIGKILL, once and last, exactly when every probe found the group alive; nothing when no group has the label. |
| `ProcessGroups.SignalLiveGroups` | crates/agent-block-core/src/bridge/sh.rs:162-178 | Every group registered at the start is signalled once, in order, no other is, and all are forgotten exactly when asked. |
| `ProcessGroups.OnlyRegisteredAreSignalled` | crates/agent-block-core/src/bridge/sh.rs:67-178 | In every interleaving of spawn, finish, timeout, cancel, `sh.kill` and sweeps, whatever ids the system hands out, only ids this bridge registered are ever signalled. |
| `ProcessGroups.KillsReachOnlyPicked` | crates/agent-block-core/src/bridge/sh.rs:88-133 | In every interleaving in which no id is handed out while an exec holds it or a kill goes on signalling it, a running exec that a kill signals is one that `sh.kill` picked. |
| `ProcessGroups.AnyReuseIsReached` | crates/agent-block-core/src/bridge/sh.rs:109-133 | That condition cannot be weakened: in every run, a command given an id that a kill goes on signalling can be signalled by it without having been picked. |
| `ProcessGroups.KillReachesAnother` | crates/agent-block-core/src/bridge/sh.rs:109-133 | A concrete run, with no held id handed out, in which a kill still in its grace period can signal another command, which will report that it was not killed. |
| `ProcessGroups.KilledReportIsExact` | crates/agent-block-core/src/bridge/sh.rs:67-95 | In every interleaving in which no id is handed out while an exec that was given it has still to forget it, a finished exec reports `killed` if and only if some `sh.kill` picked its group while registered and no `kill_live_groups` removed it. The id of an abandoned exec, still registered, may be handed out again. |
| `ProcessGroups.AnyReissueCanMisreport` | crates/agent-block-core/src/bridge/sh.rs:80-95 | That condition cannot be weakened: from every state of every run in which an id is held, registered or not, handing it out again can make a command that was killed report that it was not. |
| `ProcessGroups.ReportIsTheHoldersFlag` | crates/agent-block-core/src/bridge/sh.rs:80-85 | Without any condition: a report is whether the present holder of the id was picked. |
| `ProcessGroups.ReissuedIdMisreports` | crates/agent-block-core/src/bridge/sh.rs:162-178 | A concrete run in which an exec reports a kill that was not its own. |
| `ProcessGroups.StepKeeps` | crates/agent-block-core/src/bridge/sh.rs:382-403 | Every step keeps owners, flags and picks in agreement, and the exactness of reports where no held id is reissued. |
| `ProcessGroups.StepDoes` | crates/agent-block-core/src/bridge/sh.rs:67-178 | What each step does: a timeout, a kill and a sweep signal their group, a pick marks it, whoever forgets it removes it, a cancelled exec leaves it, and only a command that ended by itself reports. |
| `ProcessGroups.StepOnlyRegistered` | crates/agent-block-core/src/bridge/sh.rs:109-178 | Every step keeps all ids anyone is about to signal among those registered. |
| `NotifyChannel.Queue.TrySend` | crates/agent-block-mcp/src/handler.rs:780-797 | Takes the item if fewer than 128 are queued, otherwise drops it; the accounting holds on. |
| `NotifyChannel.Queue.Drain` | crates/agent-block-mcp/src/handler.rs:302-334 | The dispatch task hands over everything taken, in order, one at a time, and ends with an empty queue. |
| `NotifyChannel.SendKeeps` | crates/agent-block-mcp/src/handler.rs:780-797 | Sending keeps emitted = delivered + in flight + queued + dropped and the bound of 128, and drops exactly when the queue is full. |
| `NotifyChannel.DrainKeeps` | crates/agent-block-mcp/src/handler.rs:315-333 | Receiving and completing keep it too and neither lose nor reorder anything. |
| `NotifyChannel.DeliveredIsSubsequence` | crates/agent-block-mcp/src/handler.rs:302-334 | What was delivered is an in-order subsequence of what was emitted, each emission at most once. |
| `Mcp.RunsKeepIdentity` | crates/agent-block-mcp/src/lib.rs:166-197 | In every run of connects (failed ones included), disconnects, registrations, notifications and dispatch steps: the entry for a name is a connection that calls itself by that name, the template has no name between calls, connected names are registered, and every channel keeps its accounting. |
| `Mcp.DeliveredToItsOwnServer` | crates/agent-block-mcp/src/handler.rs:745-788 | A delivered notification is addressed to the server whose connection sent it, which had registered for its kind. |
| `Mcp.RegistrationIsSticky` | crates/agent-block-mcp/src/handler.rs:350-401 | A registration outlives every disconnect and reconnect. |
| `Mcp.OneTooMany` | crates/agent-block-mcp/src/handler.rs:780-797 | A run of one connection, one callback and 129 notifications in which the 129th, and only that one, is dropped. |
| `Mcp.StepIdentities` | crates/agent-block-mcp/src/lib.rs:404-414 | Every single step keeps the identity facts, for either transport. |
| `Mcp.Manager.EnsureServer` | crates/agent-block-mcp/src/handler.rs:341-346 | An entry there is stays as it was; otherwise an empty one is made. |
| `Mcp.Manager.SetTraceContext` | crates/agent-block-mcp/src/handler.rs:405-411 | Sets the trace flag and no other. |
| `Mcp.Manager.MarkKind` | crates/agent-block-mcp/src/handler.rs:350-401 | Adds one kind and touches nothing else. |
| `Mcp.Manager.Connect` | crates/agent-block-mcp/src/lib.rs:140-198 | On success the server map has the new connection under the name and is otherwise as before; a failed connect leaves it as it was. Unless the spawn failed, the name is registered with the kinds it had and the trace flag asked for, and the template has no name again. |
| `McpRuns.ServersAreLastConnects` | crates/agent-block-mcp/src/lib.rs:196-314 | In every run the manager has a connection under a name exactly when a connect under it succeeded that no disconnect followed, and it is that of the last one. |
| `McpRuns.HandlerOfConnection` | crates/agent-block-mcp/src/lib.rs:180-184 | For good, a connection has the name it was asked for under and the channel there was at that moment. |
| `McpRuns.TemplateIsLastIsle` | crates/agent-block-mcp/src/lib.rs:377-380 | New connections get the channel of the last main VM that was set, or none. |
| `McpRuns.KindsAreMarks` | crates/agent-block-mcp/src/handler.rs:350-401 | A kind is registered for a name exactly when some call registered it. |
| `McpRuns.TraceIsLastAsked` | crates/agent-block-mcp/src/handler.rs:405-411 | The trace flag of a name is as the last connect under it asked, failed handshakes included, and off if none did. |
| `McpRuns.NotificationsAreOffered` | crates/agent-block-mcp/src/handler.rs:745-797 | In every run a notification on a connection is offered, under the name the connection was made for and with its payload, to the channel there was when it was made, exactly when that name has registered the kind; nothing else changes. |
| `Mcp.Manager.Disconnect` | crates/agent-block-mcp/src/lib.rs:311-329 | The entry goes whatever the cancellation answers; an unknown name is no error. |
| `Mcp.Manager.DisconnectAll` | crates/agent-block-mcp/src/lib.rs:337-353 | Every server goes whatever fails; there is an error exactly when some cancellation failed, and it is one of theirs. |
| `BusDispatch.SetupEventBus` | crates/agent-block-core/src/host.rs:1741-1794 | Host handlers are installed, the last for a kind winning, and auto-serve takes the bus exactly when there is one. |
| `BusDispatch.SetupMeans` | crates/agent-block-core/src/host.rs:1741-1794 | After setup the bus is taken exactly when auto-serve is asked for and there is some handler, of one kind or the fallback; it has the host's handlers and fallback, and nothing is registered from Lua. |
| `BusDispatch.Bus.LoadHandler` | crates/agent-block-core/src/bridge/bus.rs:284-325 | The handler VM is written only by a Lua function that loads. |
| `BusDispatch.WrittenMeans` | crates/agent-block-core/src/bridge/bus.rs:304-318 | After any registrations the handler VM has a function for a kind, or for the fallback, exactly when one was for it, and it is that of the last. |
| `BusDispatch.Bus.RegisterHandler` | crates/agent-block-core/src/bridge/bus.rs:329-350 | The bus is told, or found gone. |
| `BusDispatch.Bus.TakeForServe` | crates/agent-block-core/src/bridge/bus.rs:467-495 | Succeeds exactly if not serving and the bus is there; a failure leaves everything as it was. |
| `BusDispatch.RunsKeepInv` | crates/agent-block-core/src/bridge/bus.rs:278-495 | Every run keeps one owner of the bus, at most one take, and the account of what bus and handler VM hold. |
| `BusDispatch.TakenForGood` | crates/agent-block-core/src/bridge/bus.rs:329-350 | Once taken the bus is never back in its slot and no later registration reaches it. |
| `BusDispatch.TwoLookupsAreOneTable` | crates/agent-block-core/src/bridge/bus.rs:582-590 | In every run the bus is taken at most once and never sends an event to a missing Lua handler; if no registration failed or is half done, bus lookup followed by Lua lookup equals one "kind-specific, else fallback, last write wins" table. |
| `BusDispatch.AgreeExactlyWhenTold` | crates/agent-block-core/src/bridge/bus.rs:304-346 | In every run, with failed and half-done registrations, the two lookups agree with the one table on a kind if and only if what the handler VM holds for that kind has reached the bus. |
| `BusDispatch.LateRegistrationEffect` | crates/agent-block-core/src/bridge/bus.rs:278-425 | A `bus.on` or `bus.on_any` after the take fails and yet takes effect, exactly on the kinds the bus sends to Lua that it is for: its own kind, or, for a fallback, every kind without a Lua handler of its own; all other kinds are as before. |
| `BusDispatch.FailedRegistrationTakesEffect` | crates/agent-block-core/src/bridge/bus.rs:304-346 | A concrete run in which the caller gets an error and the new handler. |
| `BusDispatch.SameTable` | crates/agent-block-core/src/host.rs:1749-1757 | After setup the bus has a handler for a kind exactly when some entry of the host's list is for it, and it is that of the last such entry. (The host keeps them in a map, so there is at most one.) |
| `InstallTools.Install` | crates/agent-block-core/src/bridge/mod.rs:225-242 | On every chain that ends, a name is set exactly when the nearest table that has it holds a function there, and to that function; a nearer non-function hides a farther function, and no other name is touched. |
| `InstallTools.InstallLevel` | crates/agent-block-core/src/bridge/mod.rs:231-238 | One table: names not seen nearer are settled, in whatever order `pairs` visits them. |
| `InstallTools.WalkAgreesExactly` | crates/agent-block-core/src/bridge/mod.rs:137-147 | For every chain and every name, an ordinary Lua lookup finds the very entry the install goes by if and only if a table of the chain within reach of Lua's own limit holds the name, or none does and the values on from the end of the chain, each the `__index` of the one before, come to nil without holding it. |
| `InstallTools.FindsNilExactly` | crates/agent-block-core/src/bridge/mod.rs:137-147 | An ordinary lookup finds nil if and only if the values it goes through come to nil within the limit and none has the name. |
| `InstallTools.LookupAlongChain` | crates/agent-block-core/src/bridge/mod.rs:137-147 | What an ordinary lookup comes to along a chain: the nearest entry, the limit, or whatever the value at the end of the chain does with it. |
| `InstallTools.FunctionIndexIsNotWalked` | crates/agent-block-core/src/bridge/mod.rs:143-147 | Where the chain ends in a function, Lua calls it for exactly the names the install takes for absent. |
| `InstallTools.EndsExactlyWhenAcyclic` | crates/agent-block-core/src/bridge/mod.rs:230-241 | The loop terminates if and only if no table is met twice. |
| `InstallTools.AcyclicHasChain` | crates/agent-block-core/src/bridge/mod.rs:230-241 | Every acyclic `__index` walk is a chain of the kind `InstallTools.Install` takes. |
| `InstallTools.RepeatNeverEnds` | crates/agent-block-core/src/bridge/mod.rs:230-241 | A walk that meets a table twice never ends. |
| `BlockRegistry.Scan` | crates/agent-block/src/blocks.rs:60-132 | For every list of directories the result is strictly sorted by name, and `find` in it succeeds exactly for the names some entry point carries and gives the first of them, by directory and then by path: what a naive search of all entry points finds. |
| `BlockRegistry.ScanDir` | crates/agent-block/src/blocks.rs:63-102 | One directory keeps names unique and the first path for each name; an unreadable one is skipped. |
| `BlockRegistry.EntryPointMeans` | crates/agent-block/src/blocks.rs:110-127 | An entry is a block exactly if it is a file `<name>.lua` with a name, or a directory `<name>` with an `init.lua`; under that name and path. |
| `BlockRegistry.PointsMean` | crates/agent-block/src/blocks.rs:63-78 | The entry points searched are exactly those of the readable directories. |
| `BlockRegistry.PointsInOrder` | crates/agent-block/src/blocks.rs:63-78 | They come by directory, and in a directory by file name. |
| `BlockRegistry.NameLeqMeans` | crates/agent-block/src/blocks.rs:75-105 | The order of names is that of a dictionary. |
| `BlockRegistry.ListingOrderDoesNotMatter` | crates/agent-block/src/blocks.rs:72-75 | The order in which a directory is listed does not matter. |
| `BlockRegistry.FirstMeans` | crates/agent-block/src/blocks.rs:130-132 | A search fails exactly when no block carries the name, and otherwise finds its first holder. |
| `BlockRegistry.SortKeepsFirst` | crates/agent-block/src/blocks.rs:104-105 | Sorting unique names does not change what a search finds. |

## Left out

- Interleaved edits of one path, and two spellings of one path: `edit` is one step, and a path is its text. The code awaits between its read and its write and promises nothing there.
- Decoding of Lua option tables: a malformed entry raises before anything is written. A file that is not UTF-8 raises on read, as a missing one does.
- The shape of the reply tables: the reply to a rejected batch is the list of failures, whose first one the source also spreads over the top level.
- `version_of` (SHA-256) is any function of the content.
- Lossy UTF-8 decoding happens per chunk, so the streaming results are about text chunks after decoding; a character split across chunks is not captured.
- Floats are reals or "not finite": the sign of zero and the bits of a NaN are not captured. A float key is known by the text it displays as.
- Identity of Lua tables: a table is recorded after its children, where the source creates it first; nothing can observe the order.
- LuaJson.JsonToLua: running out of Lua memory is not an outcome.
- `validate_event` is any predicate and `stamp` a number and a time; the SQLite store is its read contract (`crates/agent-block-core/src/knl/event_store.rs:670-674`). `History`'s derived `Default`, which numbers from 0, is not part of this model.
- The record shapes of `message_of`: the message results hold for every message function.
- ProcessGroups.KillLabelled: the grace period is a number of probes, and what each finds is a parameter.
- A poisoned lock is not an outcome anywhere.
- The other `on_*` notifications follow `on_progress`; the fallback without a channel, sampling, roots and elicitation requests, and RPC timeouts are not captured. Payloads are opaque text.
- A disconnected connection keeps its handler copy in the model, so late notifications are covered; when the transport really stops is not captured.
- The event queue, acknowledgements and the running flag of `EventBus`, the process-wide `SERVING` flag, and a handler's own run.
- Install: names that are not strings, `__pairs` (which Lua's `pairs` honours in the walk) and `__metatable`, and metamethods on the target.
- Block documentation text and the listing of blocks.
- Sandbox, vendoring, CLI and config parsing, observability, and the mesh, sql, kv, log and tool bridges: wiring and I/O that would add only easy members.
