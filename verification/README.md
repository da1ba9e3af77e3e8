# Verified model of the metrics agent and server

The repository is a metrics agent and server in Go with a code generator beside them. This project models the five parts
that carry hard properties and proves those properties for every input, run or reachable state.

* **The `Reset()` generator** (`GoTypes`, `SelectorRule`, `ResetGen`, `ResetText`, `ResetTextUnique`, `ResetReader`,
  `ResetSemantics`, `ResetTable`, `ResetNesting`, `ResetSafety`, `ResetIdempotence`, `ResetPromotion`, `ResetRun`,
  `ResetRerun`, `ResetReload`): a compiler from Go struct types to reset statements. The emitted statements run over a heap
  with aliasing, where fields of nested structs, pointees and maps are shared freely and every call is resolved as Go does,
  promotion through embedded structs, pointers and interfaces included. They are proved to do what the field table of
  `cmd/reset/README.md` says, and to return exactly when the calls of `Reset`, promoted ones among them, do not nest for
  ever and use no nil; methods written by hand are taken to return. The emission is proved to stop exactly on type graphs
  without an open cycle. The procedures that print Go text are proved to print those statements, and a reader of Go reset
  lines, written from the field table alone, is proved to read a whole generated file back as them. The breadth-first
  method search is proved to follow the language's rule for selectors. It is proved exactly when the generator can load its
  own output and writes the same files again.
* **Two shutdown protocols** (`Publisher`, `PublisherDrops`, `FileSink`, `Pool`): every atomic action of a goroutine is a
  step, a run is any list of steps, and inductive invariants hold over all interleavings.
* **Storage** (`Metrics`, `MemStorage`, `Retry`, `PgStorage`, `FileStorage`, `FileSync`): memory is the reference; the
  PostgreSQL table refines it, retried transactions are atomic and bounded, saving and loading are inverse for every map
  order, and the file behind `SyncStorage` is a whole past state at every crash point.
* **The wire** (`Bytes`, `Crypto`, `Pipeline`, `Delivery`, `Transport`): framing, encryption order, middlewares, the
  retries of agent and server together, and the gRPC path.
* **Response writers and pooled hashers** (`Response`, `HashPool`): the buffering and compressing writers are transparent
  for every handler script, and cached hashers compute the pure function and do not leak.

Where the Go code changes things step by step, the model has classes and methods with loops, proved against functions on
values; the theorems are lemmas about those functions. Goroutines are step relations. JSON, gzip, RSA, AES-GCM and HMAC are
function parameters, constrained by a predicate (`Lawful`, `LawfulCodecs`) that says only that the inverse undoes the
function and which lengths hold. Clocks, contexts, network and disk are parameters that decide outcomes.

The definitions the theorems speak about, beside the source they follow:

* `GoTypes.Search`, `GoTypes.HasOrWillHaveReset`: the method-set search and the question asked of it
  (`cmd/reset/main.go`, lines 267 to 307).
* `SelectorRule.SelectedBy`: the rule for selectors in the Go language specification, section "Selectors", on paths of
  embedded fields.
* `ResetGen.Emit`, `ResetGen.EmitStruct`: the statements for a field and for a struct (lines 205 to 265).
* `ResetSemantics.Run`: what those statements do to a heap; `ResetSemantics.Resolve`: the method a call reaches;
  `ResetTable.Marks`: the targets the field table names (`cmd/reset/README.md`, lines 28 to 46).
* `ResetReader.ReadForm`, `ResetReader.ReadBlock`, `ResetReader.ReadFile`: what a line, a block and a file of reset code say,
  by the forms of that table.
* `Publisher.Apply`, `Pool.Apply`, `HashPool.Apply`, `FileSync.Apply`: one atomic step of one goroutine of
  `internal/audit/publisher.go`, `internal/agent/pool.go`, `internal/hash/hash.go` and `internal/repository/file/storage.go`.
* `MemStorage.ApplyWrite`, `PgStorage.Upsert`: one write in memory and in SQL, where NULL plus a number is NULL and the
  type column is never updated.
* `Pipeline.Send`, `Pipeline.Chain`, `Response.Served`: the agent's request, the server's three middlewares, and the answer
  of a handler under the two response layers.

## Where code and documentation differ

The model follows the code; each difference is a lemma.

* `cmd/reset/doc.go` says a repeated run is idempotent. It is not when an unmarked struct embeds a marked one
  (`ResetIdempotence.SecondRunDiffers`), and then fields are no longer reset (`ResetPromotion.SecondRunForgets`).
  `ResetReload.RunningAgainSucceedsIff` says exactly when the second run loads and writes the same files.
* The field table guards interfaces with a type assertion, but a field of a *named* interface type that declares `Reset` is
  called directly, so a nil one panics (`ResetSafety.ResetPanicsIff`, `ResetSafety.NilResetterPanics`). Behind the
  assertion, a nil pointer to a struct that embeds a marked one panics too (`ResetPromotion.NilOuterPanics`).
* `Publisher.Close` is documented to wait for the workers; a second `Close` returns nil at once
  (`Publisher.SecondCloseMayReturnEarly`). `Publisher.DrainedIffOneCloser` says for which callers the promise holds.
* `Pool.Submit` is documented to be delivered or refused when it races `Shutdown`; it can also panic
  (`Pool.SafeIffOneCaller`). A `Shutdown` after one that aborted a send may return nil (`Pool.NilMeansLiveIffFirst`).
* The agent turns a metric of unknown type, or without its value, into a zero on the gRPC path, where the storage itself
  ignores it (`Transport.AgreeIffWellFormed`).
* `SyncStorage` is described as writing to disk after every update; with two concurrent callers the file may lag behind
  memory although both returned nil, and `UpdateBatch` hides a failed save (`FileSync.SyncedIffSequential`).

## Model

| member | source | states |
|---|---|---|
| GoTypes.OwnResetDecides | cmd/reset/main.go:291-307 | a type's own `Reset` decides whatever it embeds; a type without one that embeds nothing has none |
| SelectorRule.MethodSetIff | cmd/reset/main.go:291-307 | the breadth-first method search finds `Reset()` exactly when Go's rule selects it: one path of embedded fields leads to something of that name, all others that do are longer, and it is a method `func()`; the search gives that path |
| ResetGen.EmitNoneIffLongChain | cmd/reset/main.go:214-254 | the descent opens more than `fuel` named types exactly when a chain that long exists |
| ResetGen.EmissionStopsIff | cmd/reset/main.go:205-289 | the emission stops if and only if it never re-enters a named type it is opening, and then one level more than there are declared types is enough |
| ResetGen.EmitMonotone | cmd/reset/main.go:205-254 | once the emission stops, the statements do not depend on the bound |
| ResetText.EmitBasicText | cmd/reset/main.go:256-265 | appends exactly the text of the reset statement of a basic type |
| ResetText.EmitField | cmd/reset/main.go:214-254 | appends to the builder exactly the text of the statements for the field, at any indentation |
| ResetText.EmitPointer | cmd/reset/main.go:225-234 | the nil guard, with a call or the recursion inside |
| ResetText.EmitFields | cmd/reset/main.go:205-210 | appends the text of all fields in declaration order |
| ResetText.RenderPackage | cmd/reset/main.go:171-195 | header, package clause and one method per target, in order |
| ResetTextUnique.PathUnique | cmd/reset/main.go:205-234 | two access paths with the same text are the same path |
| ResetTextUnique.HeadUnique | cmd/reset/main.go:214-265 | two statements with the same first line are the same kind of statement on the same path |
| ResetTextUnique.TextUnique | cmd/reset/main.go:205-265 | emitted text splits into statements in only one way |
| ResetTextUnique.MethodTextUnique | cmd/reset/main.go:171-180 | the text of a generated method determines its statements, whatever the surrounding types |
| ResetReader.PathReads | cmd/reset/main.go:205-234 | the text of every access path reads back as that path |
| ResetReader.HeadReads | cmd/reset/README.md:28-41 | the first line of every statement, read whole by the forms of the field table (`X = false`, `X = ""`, `X = 0`, `X = X[:0]`, `clear(X)`, `X.Reset()` and the two `if` heads), is that kind of statement on that path |
| ResetReader.BlockReads | cmd/reset/main.go:205-265 | the lines of emitted statements, bodies and closing braces included, read back as those statements |
| ResetReader.MethodReads | cmd/reset/main.go:171-180 | the text of a generated method, comment, signature and nil check included, reads back as its type name and `MethodBody` |
| ResetReader.FileReads | cmd/reset/main.go:171-195 | a whole generated file reads back as its package name and the methods of its targets, in order |
| ResetReader.HeaderMarks | cmd/reset/main.go:182-190 | the first line of the file has the form by which Go tools know generated code |
| ResetTable.ComposeEffects | cmd/reset/README.md:28-46 | statements run one after another reset the union of their targets, aliased or not |
| ResetTable.MarksShape | cmd/reset/README.md:28-46 | the table reads only what resets never change, so it says the same at any moment of the run |
| ResetTable.EmitEffect | cmd/reset/main.go:214-254 | the statements for a field do to the heap what the table says for its type |
| ResetTable.ResetMeetsTable | cmd/reset/main.go:171-265 | when the generated `Reset` returns, exactly the targets of the table are reset, also by generated methods that are promoted to unmarked types, pointers are unchanged and all else is untouched, whatever hand-written methods do to pointers the table does not follow |
| ResetNesting.NestsIffChain | cmd/reset/main.go:225-240 | calls of `Reset`, promoted ones and those through interfaces included, nest k deep exactly when there is a chain of k + 1 of them |
| ResetNesting.NestsShape | cmd/reset/main.go:225-240 | how deep calls nest is the same at any moment of the run |
| ResetNesting.EmitDeepIff | cmd/reset/main.go:214-254 | the statements for a field, unless they panic, need more depth than given exactly when a call among them nests deeper |
| ResetSafety.ResetReturnsIff | cmd/reset/main.go:171-254 | in a well-typed heap `Reset` returns within a depth exactly when its calls nest no deeper and the table leads to no use of a nil interface or outer pointer; it runs too deep or panics when just one of the two fails |
| ResetSafety.ReturnsIffChainsBounded | cmd/reset/main.go:171-254 | given enough stack, `Reset` returns if and only if its chains of calls are bounded |
| ResetSafety.ResetPanicsIff | cmd/reset/main.go:236-241 | with bounded chains, `Reset` panics exactly when the table leads to a nil named interface that declares `Reset`, or to a nil pointer from which a promoted `Reset` is selected |
| ResetSafety.CycleNeverReturns | cmd/reset/main.go:225-229 | every pointer cycle that leads a chain of calls back to one of them keeps `Reset` from returning at any depth |
| ResetSafety.SelfLoopIsCycle | cmd/reset/main.go:225-229 | a node pointing to itself is such a cycle |
| ResetSafety.NilResetterPanics | cmd/reset/main.go:236-240 | a concrete nil field of a named interface type panics |
| ResetPromotion.PromotedIsGenerated | cmd/reset/main.go:291-307 | the `Reset` of an unmarked struct that embeds one marked struct, and has none of its own, is the generated one |
| ResetPromotion.PromotedCall | cmd/reset/main.go:225-248 | a call on such a struct runs the generated method on the embedded struct, returns on a nil embedded pointer and panics on a nil outer one |
| ResetPromotion.MarkedImplements | cmd/reset/main.go:244-248 | a pointer to a marked struct passes the type assertion, the struct itself does not |
| ResetPromotion.EmbedderImplements | cmd/reset/main.go:244-248 | of a struct around a marked one a pointer passes, and the struct itself exactly when it embeds a pointer |
| ResetPromotion.HandWrittenImplements | cmd/reset/main.go:244-248 | with a hand-written `Reset` a pointer passes, and the type itself exactly when the receiver is a value |
| ResetPromotion.OthersDoNotImplement | cmd/reset/main.go:244-248 | with no `Reset` declared or embedded neither passes |
| ResetPromotion.PromotedLoopIsCycle | cmd/reset/main.go:244-248 | an interface field that holds a pointer to the struct around its own embedded struct is a cycle of calls |
| ResetPromotion.NilOuterPanics | cmd/reset/main.go:244-248 | an interface field with a nil pointer to such a struct passes the assertion and panics |
| ResetPromotion.SecondRunForgets | cmd/reset/doc.go:7-11 | the method of the first run zeroes both fields of the excluded case, that of the second leaves the sibling field alone |
| ResetIdempotence.SameCodeIff | cmd/reset/main.go:205-289 | two type environments give the same code if and only if no question the generator asks has different answers |
| ResetIdempotence.SearchSame | cmd/reset/main.go:291-307 | generated methods change no method search that meets no marked struct |
| ResetIdempotence.AnswersSame | cmd/reset/main.go:270-289 | with no marked struct embedded in an unmarked one and no marker lost, every answer survives the run |
| ResetIdempotence.SecondRunSameIff | cmd/reset/doc.go:7-11 | the second run generates the same method exactly when the first run's methods change none of its answers |
| ResetIdempotence.SecondRunSame | cmd/reset/doc.go:7-11 | idempotence when no unmarked struct embeds a marked one and none lost its marker |
| ResetIdempotence.SecondRunDiffers | cmd/reset/main.go:270-289 | the excluded case: the second run calls the promoted `Reset` and forgets the sibling field |
| ResetRun.FindTargets | cmd/reset/main.go:103-145 | the marked structs of the hand-written files, collected by three nested loops and sorted |
| ResetRun.TargetsMean | cmd/reset/main.go:101-145 | a target is exactly a marked named struct of a file that is not generated |
| ResetRun.OneTypePackage | cmd/reset/main.go:103-145 | a type is a target when the marker stands on its spec or only on its declaration, and not when it is no struct, not named, unmarked or in a generated file |
| ResetRun.SortSorts | cmd/reset/main.go:143 | the sort orders by name and neither adds nor drops |
| ResetRun.LeqMeans | cmd/reset/main.go:143 | the order is Go's on strings: a beginning comes first, and else the smaller character where they first differ |
| ResetRun.TargetsDetermined | cmd/reset/main.go:101-103 | the targets do not depend on files or their order |
| ResetRun.RunGenerator | cmd/reset/main.go:67-98 | one file for every package with targets, rendered once all targets of all packages are known |
| ResetRun.WriteKeepsTargets | cmd/reset/main.go:105-108 | the written file, being generated, adds no target |
| ResetRun.RunningAgainWritesSame | cmd/reset/doc.go:7-11 | a second run over the output of the first writes the same files, when no unmarked struct embeds a marked one and none lost its marker |
| ResetRerun.SameReadingSameAnswers | cmd/reset/main.go:214-254 | code that reads the same comes from the same answers |
| ResetRerun.MethodsRead | cmd/reset/main.go:171-180 | the text of all methods of a file determines the statements of each |
| ResetRerun.RunningAgainWritesSameIff | cmd/reset/doc.go:7-11 | a second run, once it loads, writes the same files exactly when the methods of the first change no answer their code depends on |
| ResetReload.EmittedCalls | cmd/reset/main.go:214-254 | the generated code calls `Reset` on exactly the types for which the question is answered yes |
| ResetReload.ResolvesIff | cmd/reset/main.go:291-307 | a `Reset` that was found before the run is found after it exactly when it has not become ambiguous |
| ResetReload.CompilesIff | cmd/reset/main.go:58-64 | if no struct lost its marker, the files a run leaves compile exactly when no marked struct has another `Reset`, as method or field, and no generated call becomes ambiguous |
| ResetReload.LostMarkerBreaks | cmd/reset/main.go:58-64 | a generated call on a struct that lost its marker no longer compiles |
| ResetReload.RunningAgainSucceedsIff | cmd/reset/doc.go:7-11 | a second run loads and writes the same files exactly when the answers its code depends on are unchanged and no marked struct has another `Reset` |
| Publisher.StepInv | internal/audit/publisher.go:59-134 | every step of every goroutine keeps the invariant |
| Publisher.NothingLostInAnyRun | internal/audit/publisher.go:70-98 | in every interleaving no send or close meets a closed queue, queues keep their bound, and notified, in flight and queued events are exactly the publish-order attempts that found room |
| PublisherDrops.DroppedIffFull | internal/audit/publisher.go:70-83 | in every run an event is dropped at an observer exactly when `capacity` accepted events have not been received there yet |
| PublisherDrops.NothingDroppedBelowCapacity | internal/audit/publisher.go:70-83 | in every run, until more events than the capacity were published no observer misses one |
| PublisherDrops.PublishedUnlessClosed | internal/audit/publisher.go:70-76 | in every run, before a `Close` the published events are exactly those of the `Publish` calls that have got the lock |
| PublisherDrops.WaitErrIffTimedOut | internal/audit/publisher.go:90-120 | in every run a `Close` has a wait error exactly when its own context ended while it waited |
| PublisherDrops.LiveIffNotCancelled | internal/audit/publisher.go:59-67 | in every run a notification ends with a live context exactly when no `Close` has cancelled the workers yet |
| PublisherDrops.TimedOutCloseCancels | internal/audit/publisher.go:107-120 | a `Close` that times out ends the context of the notification in progress, waits for it and reports the error |
| Publisher.FirstCloseReturns | internal/audit/publisher.go:85-134 | when the first `Close` returns, all accepted events were notified, workers exited, closers closed once, and with a live context unless it reports a wait error |
| Publisher.NeverNotifiedAfterClose | internal/audit/publisher.go:114-134 | no observer is notified after it was closed, or closed before all workers exited |
| Publisher.NeverStuck | internal/audit/publisher.go:70-120 | while a caller has not returned some goroutine can step, without any context ending |
| Publisher.DrainedIffOneCloser | internal/audit/publisher.go:85-120 | for every set of callers, a returned `Close` means that all workers have exited, in all runs, if and only if there is no observer or at most one caller closes |
| Publisher.RunsAreBounded | internal/audit/publisher.go:59-134 | every step brings the calls nearer to their return, so no run is longer than its callers allow |
| Publisher.EndedRunHasReturned | internal/audit/publisher.go:59-134 | a run that cannot go on without a context ending has let every `Publish` and `Close` return |
| Publisher.SecondCloseMayReturnEarly | internal/audit/publisher.go:91-95 | a run in which a second `Close` returns nil with an accepted event still queued |
| FileSink.Sink.Notify | internal/audit/file_sink.go:32-52 | appends one line to an open sink, and otherwise reports which step failed |
| FileSink.Sink.Close | internal/audit/file_sink.go:55-66 | closes once |
| FileSink.OpenSinkAppends | internal/audit/file_sink.go:15-52 | over any calls that do not close it, an open sink holds its old content and one line for each event reported written |
| FileSink.NotifySucceedsIff | internal/audit/file_sink.go:32-53 | nil exactly with a live context, an event that encodes, an open sink and a whole write, and then the line is appended; else at most a beginning of it |
| FileSink.OwnedSinkNeverClosed | internal/audit/file_sink.go:43-47 | in every run of a publisher that owns it, a sink never answers that it is closed |
| Pool.StepInv | internal/agent/pool.go:57-107 | every step of the single caller and of the workers keeps the invariant |
| Pool.ExactlyOnceInAnyRun | internal/agent/pool.go:57-78 | `Submit` returned true exactly for the queued batches, they leave in that order, and each is queued, in flight or sent once |
| Pool.SubmitRefusesIffStopped | internal/agent/pool.go:66-79 | in every run of one caller a `Submit` answers false exactly when a `Shutdown` has returned before it |
| Pool.ErrorIffTimedOut | internal/agent/pool.go:84-107 | in every run of any number of callers, exactly the shutdowns whose own context ended first return an error |
| Pool.FirstShutdownReturns | internal/agent/pool.go:80-107 | once the first `Shutdown` returned, with an error or not, every accepted batch was sent once and no worker is alive; without an error, with a live context |
| Pool.NeverStuck | internal/agent/pool.go:63-107 | a call in progress can always be served |
| Pool.SafeIffOneCaller | internal/agent/pool.go:21-88 | no run panics if and only if a single goroutine uses the pool |
| Pool.FinishesIffWorkers | internal/agent/pool.go:38-53 | shutdown always leaves the pool finished if and only if it has a worker |
| Pool.NilMeansLiveIffFirst | internal/agent/pool.go:80-107 | a nil from a `Shutdown` means, in all runs, that no accepted batch was aborted if and only if it is the first `Shutdown` |
| Pool.RunsAreBounded | internal/agent/pool.go:57-107 | a run takes at most six steps for each call it begins, and one for each worker |
| Pool.EndedRunHasReturned | internal/agent/pool.go:63-107 | a run that only a new call or a context ending could go on with has let every call return |
| Pool.SecondShutdownMayReturnNil | internal/agent/pool.go:80-107 | a run in which the send of an accepted batch is aborted, the first `Shutdown` says so and the second returns nil |
| Metrics.WrapAdd | internal/repository/storage.go:61 | 64-bit sums may be wrapped at every step or once |
| Metrics.BatchWritesAppend | internal/repository/storage.go:69-80 | the writes of two batches in a row are those of their concatenation |
| MemStorage.MemStorage.UpdateGauge | internal/repository/storage.go:51-56 | sets one gauge and nothing else |
| MemStorage.MemStorage.UpdateCounter | internal/repository/storage.go:58-63 | adds to one counter, wrapping, and changes nothing else |
| MemStorage.MemStorage.UpdateBatch | internal/repository/storage.go:65-82 | the loop is the fold of the single updates; metrics of unknown type or without a value do nothing |
| MemStorage.BatchComposes | internal/repository/storage.go:65-82 | a concatenated batch is its parts one after the other |
| MemStorage.GaugesMean | internal/repository/storage.go:51-56 | after any writes a gauge holds the last value written to it |
| MemStorage.CountersMean | internal/repository/storage.go:58-63 | after any writes a counter holds the wrapped sum of everything added |
| Retry.Do | internal/retry/retry.go:18-43 | makes at most four attempts and stops exactly at success, a final error, a context that ends or the last delay |
| Retry.AttemptsStop | internal/retry/retry.go:18-43 | the recursive form of the loop meets the rule for stopping |
| PgStorage.TableRefinesMemory | internal/repository/pg/storage.go:42-102 | after any writes the table's view of an id is memory's entry for the kind it was first written with, and the other kind is absent |
| PgStorage.StorageRefinesMemory | internal/repository/pg/storage.go:42-102 | the same for any list of gauge, counter and batch calls |
| PgStorage.AgreeIffOneKind | internal/repository/pg/storage.go:42-64 | table and memory agree on an id if and only if it is written as one kind |
| PgStorage.RunTransaction | internal/repository/pg/storage.go:67-101 | one attempt is the whole batch, or nothing, in every combination of failures |
| PgStorage.PgStorage.UpdateBatch | internal/repository/pg/storage.go:66-102 | the table after the retried transaction |
| PgStorage.PgStorage.UpdateOne | internal/repository/pg/storage.go:42-64 | the table after a retried single statement |
| PgStorage.UpsertsOkIff | internal/repository/pg/storage.go:42-64 | on any table, writes succeed exactly when ids have at most 255 characters and no prefix of them takes a stored sum out of the 64-bit range |
| PgStorage.FreshWritesOkIff | internal/repository/pg/storage.go:42-64 | on an empty table: exactly when ids are short and, after every prefix, the deltas of every counter sum to a 64-bit number |
| PgStorage.AttemptSucceedsIff | internal/repository/pg/storage.go:67-101 | an attempt returns nil exactly when begin, executed statements and commit succeed and the table can take every write |
| PgStorage.RetriedIff | internal/repository/pg/storage.go:30-36 | a call is tried again exactly after an error of class 08 or 40, while its context lives, four times in all, and returns what the last attempt did |
| PgStorage.TransientFailure | internal/repository/pg/storage.go:30-36 | a batch that fails once with such an error and then commits returns nil after two attempts |
| PgStorage.OtherFailure | internal/repository/pg/storage.go:30-36 | any other error is returned by the first attempt |
| PgStorage.DataErrorIsFinal | internal/repository/pg/storage.go:66-102 | a batch that the table cannot take leaves it as it was found and is not tried again |
| PgStorage.BatchAtomicAndBounded | internal/repository/pg/storage.go:66-102 | whatever other clients write between the attempts, the table is made by their writes with the whole batch among them once for each of the at most 4 attempts that took effect; nil means the last one did; with no ambiguous commit only the last did, and exactly for nil |
| PgStorage.SingleAtomicAndBounded | internal/repository/pg/storage.go:42-64 | the same for a retried `UpdateGauge` or `UpdateCounter` |
| PgStorage.GaugeBatchIdempotent | internal/repository/pg/storage.go:77-84 | a row no other client writes meanwhile is, after a batch of gauges applied any number of times, as after one application |
| PgStorage.CounterCounts | internal/repository/pg/storage.go:85-94 | a counter counts the batch once for each time it was applied, beside what other clients add |
| PgStorage.ReadsWithin | internal/repository/pg/storage.go:132-167 | the maps that outlive failed reads hold only rows of the right type, while writers go on |
| PgStorage.GetAll | internal/repository/pg/storage.go:132-173 | the answer is exactly the table at the successful attempt, unpolluted by earlier ones, or empty |
| FileStorage.SaveLoadRoundTrip | internal/repository/file/storage.go:17-96 | loading a saved file, written in any map order, overlays its gauges and adds its counters, and restores an empty store exactly |
| FileStorage.HoldsOne | internal/repository/file/storage.go:17-43 | a file holds the state of only one storage |
| FileStorage.ListedFinite | internal/repository/file/storage.go:40-43 | a storage can be encoded exactly when all its gauges are finite |
| FileStorage.Collect | internal/repository/file/storage.go:18-38 | the list lists every gauge and counter once, in the order the ranges took |
| FileStorage.Save | internal/repository/file/storage.go:17-64 | returns nil exactly when the gauges are finite and every file operation succeeds; then the file holds the storage, else it is as before |
| FileStorage.Load | internal/repository/file/storage.go:66-96 | replays the metrics of the file as single updates |
| FileStorage.SyncStorage.UpdateGauge | internal/repository/file/storage.go:112-117 | returns nil exactly when the gauges are finite and every file operation succeeds; then the file holds what memory holds, else it is as before |
| FileStorage.SyncStorage.UpdateCounter | internal/repository/file/storage.go:119-124 | returns nil exactly when the gauges are finite and every file operation succeeds; then the file holds what memory holds, else it is as before |
| FileStorage.SyncStorage.UpdateBatch | internal/repository/file/storage.go:126-134 | returns nil whether or not the save succeeded |
| FileSync.FileIsAWholeState | internal/repository/file/storage.go:45-63 | at every step of any concurrent updates, crash points included, the file is the initial one or one whole past state of memory |
| FileSync.TornWrite | internal/repository/file/storage.go:45-63 | a crash can find any beginning of the data in the temporary file, with the file untouched |
| FileSync.SyncedIffSequential | internal/repository/file/storage.go:98-134 | the nil an update returns means that the file holds memory, once all has settled, if and only if there is one caller and the update is not a batch |
| FileSync.HiddenFailure | internal/repository/file/storage.go:126-134 | a batch whose save fails returns nil |
| FileSync.StaleFile | internal/repository/file/storage.go:112-124 | two concurrent updates that both return nil leave the file behind memory |
| Crypto.SplitIffFramed | internal/crypto/crypto.go:125-133 | the decoder splits a byte string into a pair exactly when it is the frame of that pair |
| Crypto.FrameLayout | internal/crypto/crypto.go:116-119 | two length bytes, the high one first, then the key block, then the rest |
| Crypto.FrameRoundTripIff | internal/crypto/crypto.go:116-119 | a frame splits back if and only if its key block is under 65536 bytes |
| Crypto.FrameInjective | internal/crypto/crypto.go:116-119 | framing is injective |
| Crypto.BuildFrame | internal/crypto/crypto.go:116-120 | the buffer filled in place is the frame |
| Crypto.DecryptEncrypt | internal/crypto/crypto.go:91-154 | decryption with the matching key undoes encryption, for every session key and nonce |
| Crypto.DecryptsIff | internal/crypto/crypto.go:124-154 | a byte string decrypts to a plaintext exactly when it is a frame whose key block opens to an AES key that opens the rest; everything else is rejected |
| Pipeline.BuildRequest | internal/agent/sender.go:72-132 | the request: gzip of the JSON, encrypted if there is a key, with the HMAC of the JSON |
| Pipeline.HttpRequest.DecryptMiddleware | internal/crypto/middleware.go:19-46 | replaces body and length, or answers 400 or 500 |
| Pipeline.HttpRequest.GunzipMiddleware | internal/gzip/gzip.go:75-103 | replaces the body, a broken one by a broken one, or answers 400 on a bad gzip header |
| Pipeline.HttpRequest.VerifyMiddleware | internal/hash/middleware.go:44-68 | passes the body on exactly when its HMAC is the one received |
| Pipeline.RequestRoundTrip | cmd/server/main.go:169-172 | in every configuration the handler gets exactly the JSON bytes the agent signed, or 400 when both sides sign and their HMACs differ |
| Pipeline.UnverifiedPassesIff | internal/hash/middleware.go:53-68 | a server with a key hands over an unverified body exactly when the request is unsigned and would pass without a key, and a signed one exactly when it verifies |
| Pipeline.PassesIff | cmd/server/main.go:169-172 | any request reaches the handler exactly when its body decrypts, begins as it says and, if both sides sign, has a content that matches; the handler reads that content, or a body that breaks off |
| Pipeline.RefusedWith | internal/crypto/middleware.go:19-46 | a body that does not decrypt, or has a bad gzip header, is answered 400, one that cannot be read 500 |
| Pipeline.LengthFollowsBody | internal/crypto/middleware.go:40-44 | the declared length is that of the body before and after decryption |
| Pipeline.HandlerRefusesIff | internal/handler/handler.go:156-175 | the handler answers 400, and stores nothing, exactly when the body does not begin with a list of metrics or the list is empty |
| Pipeline.TakesBatchIff | internal/handler/handler.go:156-175 | the storage takes a batch from any request exactly when what arrives of its body decrypts, decompresses and begins with that non-empty batch, and the whole of it matches the signature if both sides sign |
| Pipeline.SentBatchIsApplied | internal/handler/handler.go:156-175 | one serving of a sent batch updates the server's memory as if applied directly |
| Delivery.MemoryDelivery | internal/agent/sender.go:116-158 | with the agent's retries a batch is counted once for each of the at most four posts that were served; with no answer lost, once on success and else never |
| Delivery.TableDelivery | internal/agent/sender.go:116-158 | with the retries of agent and server a batch is applied at most sixteen times among the writes of other clients, at least once on success; with no answer lost and no ambiguous commit, once on success and else never |
| Delivery.SixteenTimes | internal/agent/sender.go:116-158 | the bound is met: when the database confirms no commit, a batch of gauges is posted four times and applied sixteen times, though every answer reaches the agent |
| Delivery.RepeatedIff | internal/agent/sender.go:39-45 | whatever the server does, and while the context lives, a post is repeated exactly when no answer comes back or a status of 500 and up does, four posts in all; a smaller status is final, and success is one below 400 |
| Pipeline.SendsIff | internal/agent/sender.go:72-112 | a batch is sent exactly when it is non-empty, finite and can be encrypted |
| Transport.ToProtoLoop | internal/agent/grpcsender.go:63-82 | every metric converted, in order |
| Transport.UpdateMetrics | internal/grpcserver/server.go:45-79 | accepted exactly when non-empty with known kinds only; one unknown kind rejects the batch with no write; else exactly its writes are applied |
| Transport.AgreeIffWellFormed | internal/agent/grpcsender.go:60-82 | gRPC does to every storage what the metric itself does if and only if the metric is well formed |
| Transport.SameWrites | internal/grpcserver/server.go:63-79 | for well-formed batches the wire form carries the same writes |
| Transport.SendOverGrpc | internal/grpcserver/server.go:45-79 | agent loop and server loop together leave the storage as the batch applied directly |
| Response.GzipWriter.DecideOnce | internal/gzip/gzip.go:36-49 | on the first status or write, compression is chosen by content type and two headers change |
| Response.GzipWriter.WriteHeader | internal/gzip/gzip.go:51-54 | decides, then sends the status |
| Response.GzipWriter.Write | internal/gzip/gzip.go:56-62 | decides, then compresses or passes on |
| Response.GzipWriter.Close | internal/gzip/gzip.go:64-72 | ends the stream once |
| Response.HashWriter.WriteHeader | internal/hash/middleware.go:34-37 | remembers the last status |
| Response.HashWriter.Write | internal/hash/middleware.go:39-41 | buffers |
| Response.HashMiddleware | internal/hash/middleware.go:44-94 | runs the handler on the buffering writer, then signs and releases |
| Response.Serve | internal/gzip/gzip.go:75-114 | the two layers around a handler, as objects, give the answer of the value model |
| Response.MirrorsRun | internal/gzip/gzip.go:30-72 | the gzip layer, call by call, keeps in step with the bare writer |
| Response.GzipAnswer | internal/gzip/gzip.go:36-72 | gzip leaves the answer alone, or sends its compression with the same status and two headers changed |
| Response.SigningFlushes | internal/hash/middleware.go:71-94 | a handler under the signing layer is that handler with its edits first, then signature, last status and whole body |
| Response.CompressedIff | internal/gzip/gzip.go:36-49 | the client gets a compressed body exactly when it accepts one, the handler responds, and the content type it goes out with begins with `application/json` or `text/html` |
| Response.BodyKept | internal/hash/middleware.go:26-94 | for every handler script that sets no Content-Encoding the client decodes the bytes the handler wrote |
| Response.StatusKeptIff | internal/hash/middleware.go:34-88 | the status is kept without a key, and with one exactly when no late `WriteHeader` asks for another |
| Response.SignedIff | internal/hash/middleware.go:80-84 | HashSHA256 is present exactly when there is a key and a body, and is the HMAC of the body the client reads |
| Response.HeadersKeptIff | internal/hash/middleware.go:71-94 | all other headers are kept without a key, and with one exactly when late edits leave them as they were |
| Response.HeadersKept | internal/hash/middleware.go:71-94 | so they are when the handler sets them first |
| Response.LengthKeptIff | internal/gzip/gzip.go:42-44 | for every script, a length in the headers the answer goes out with reaches the client exactly when gzip leaves it alone |
| Response.LayersTransparent | internal/gzip/gzip.go:106-114 | status, body, headers and signature together, for handlers that set headers and one status first |
| Response.EncodedBodyKeptIff | internal/gzip/gzip.go:41-48 | for every script, the client decodes the same bytes exactly when it decompresses the handler's own bytes with and without the layers or in neither case, or decompressing changes nothing |
| Response.EncodedFirstKeptIff | internal/gzip/gzip.go:41-48 | with headers first: exactly when gzip leaves the answer alone or decompressing once more changes nothing |
| HashPool.StepInv | internal/hash/hash.go:15-46 | every step keeps pooled hashers clean, bound to their key and unshared |
| HashPool.ComputeIsPure | internal/hash/hash.go:36-46 | in every interleaving each `Compute` returns the HMAC of its own data under its own key |
| HashPool.HashersAreExclusive | internal/hash/hash.go:17-34 | a hasher in use is in no other hands and in no pool |
| HashPool.NothingLeaks | internal/hash/hash.go:29-34 | in every interleaving each hasher ever made is in a caller's hands, in the pool of its key, or was garbage collected |
| HashPool.NeverStuck | internal/hash/hash.go:17-46 | in every interleaving a call that has begun can go on |
| HashPool.SecondComputeReuses | internal/hash/hash.go:17-34 | a second `Compute` with the same key can use the hasher of the first |
| HashPool.HexMeans | internal/hash/hash.go:45 | two lower-case digits for each byte, the high one first |
| HashPool.HexInjective | internal/hash/hash.go:45 | hexadecimal text determines the bytes |
| HashPool.UnhexIff | internal/hash/hash.go:45 | a text is the hexadecimal form of the bytes it decodes to, and only of those |
| HashPool.VerifyAcceptsIff | internal/hash/hash.go:49-52 | in every interleaving, what a finished `Compute` returned is accepted against an arbitrary text exactly when the text decodes, in lower case, to the HMAC of that call's data under its key |

## Left out

* ResetText.RenderPackage: the text before `format.Source`; gofmt's own layout is not modelled.
* ResetText.ReceiverName: lower-cases ASCII letters only; other alphabets are not modelled.
* SelectorRule.MethodSetIff: for named types, of which none has `Reset` twice, as Go demands of the fields and methods of one type; a struct type literal is searched in the same way, from its fields.
* ResetReader.FileReads: receiver, field and type names are Go identifiers, and the package name is one line.
* ResetGen.Emit: takes a bound on the named types it opens, which the Go recursion lacks; `EmissionStopsIff` says when a bound suffices, and with no bound Go does not stop.
* ResetTable.ResetMeetsTable: hand-written `Reset` methods are opaque, return without a panic, change only what they reach, and leave alone the pointers, maps and interfaces that the table follows; generics, type aliases, blank fields and inaccessible foreign fields are not modelled.
* ResetSemantics: for a field of a defined pointer type (`type P *T`) the generator emits a method call that Go rejects; the model runs it as a call on the pointee.
* ResetReload.CompilesIff: of a package's compilation only the method `Reset` is modelled; hand-written code that calls a `Reset` which becomes ambiguous is not.
* ResetRun.RunGenerator: package loading, comment parsing for the marker, the order in which files are written and write errors are not modelled.
* Pool.ExactlyOnceInAnyRun: an unbuffered queue (capacity 0), on which a send waits for a receiver, is not modelled; the agent uses the worker count as capacity.
* PgStorage.PgStorage.UpdateBatch: retries the function of one transaction that `RunTransaction` is proved to compute, since a closure cannot be a method.
* PgStorage.BatchAtomicAndBounded: other clients commit between the attempts, not in the middle of one.
* PgStorage: `GetGauge` and `GetCounter` appear as views of the table, not as retried queries; integers out of range are errors, as in SQL.
* FileSync.FileIsAWholeState: a rename is durable when it returns; `fsync` and power loss are not modelled.
* FileStorage: ids that JSON would change (invalid UTF-8) are excluded by the law that decoding undoes encoding.
* Response: write errors of the connection, informational and bodiless statuses, HEAD requests, sniffed content types and a declared length that does not match the body are not modelled; header names are canonical.
* Response: pooled buffers and compressors start empty, as their `Reset` calls make them.
* Pipeline: the realIP header and the texts of error answers.
* Delivery.TableDelivery: a post whose answer breaks off counts as lost; a request that cannot be built is not modelled.
* Pipeline.RequestRoundTrip: two distinct keys with equal HMACs of the same body count as matching.
* Retry: the lengths of the delays; each wait is a choice between going on and the context ending.
* JSON, gzip, RSA, AES-GCM and HMAC themselves: functions with inverse and length laws.
* Gauge arithmetic: values are opaque with a finite flag.
* `Collector` sends a cumulative poll count as a delta, so nothing is claimed about the server's PollCount.
* Logging, configuration, handlers other than the batch handler, `trustedsubnet`, `staticlint` and key generation: plumbing or one-branch facts.
