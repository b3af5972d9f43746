# Verified model of the provider stack's decision logic

This project models, in Dafny, the parts of the repository where a small mistake would go unnoticed: the byte scanner and
the validators of the chat gateway, the configuration reconciler, the release ledger and its Tier-2 staging, the register
of production exceptions, the async semaphore, the claim file, and the choice of benchmark winners. Each part has a
specification written as functions and predicates, the loops and classes of the source as methods proved against it,
and theorems about the specification. A module called meaning, reading or verdict states the result of its part once
more on the data alone, with its own definitions and literal constants, and proves the two equivalent.

The main results, one line each:

- **Raw JSON scanner.** It steps over a value if and only if the JSON grammar puts one there, and its key-path search
  returns exactly the bytes of the first matching member in document order.
- **Schema validator.** Accepted schemas are exactly the notations of closed record types, and on each of them the instance
  check decides membership in the type. Every rejection, of a schema or an instance, points at a node that breaks the very
  rule its error names.
- **Configuration reconciler.** Exit status 0 means every difference between the two trees is one the manifest states, with
  its kind and its values; over which alphabets of keys flattening can hide one is proved as an if-and-only-if.
- **Release ledger.** Along every accepted history nothing published is lost, no id has two fates, and a record changes
  once per added feed.
- **Tier-2 staging.** The staged output of the derived binding always passes the check that follows it.
- **Exception register.** Checking against the summary of a history is checking against all of it; over every gated
  run nothing returns from removed or expired and no date moves later, though a date may be dropped; an error-free sync
  restore revives nothing.
- **Semaphore.** Over every interleaving of waits, signals and cancellations permits and holders add up to the value, a call
  is granted at once exactly below it, grants follow arrival, and every waiter is resumed at most once and can be served.
- **Requests.** The iterative depth probe equals the recursive depth; the two message loops accept exactly the histories
  whose tool results map injectively to earlier calls.
- **Claim file.** After every run of pairing events the file reads back as the token, URL and time of the last change.
- **Winner selection.** The winner is the cleanest, then fastest, then soonest, then smallest of the cells within the gates,
  independent of their order, and every no-winner profile satisfies the release validator.

## Layout

| files | part |
|---|---|
| `JsonGrammar`, `ScannerSpec`, `JsonScanner`, `ScannerGrammar`, `KeyPathLookup` | raw JSON scanner |
| `JsonPointer`, `JsonSchema`, `JsonReadings`, `SchemaMeaning`, `SchemaNotation`, `SchemaFaults`, `SchemaValidator` | schema validator |
| `ContainerDepth`, `MessageHistory`, `HistoryReading`, `RequestValidation` | tool definitions and message history |
| `ConfigTree`, `FlattenLossless`, `PythonEquality`, `ConfigDrift`, `HiddenDrift`, `ConfigReconcile`, `ReconcileVerdict` | configuration reconciler |
| `ReleaseLedger`, `LedgerMeaning`, `LedgerHistory`, `Tier2Catalog`, `StagingMeaning`, `Tier2Staging` | release script |
| `RegisterChecks`, `RegisterMeaning`, `ExceptionIds`, `RegisterReading`, `ExceptionRegister`, `HistorySummary`, `HistoryMethods`, `RegisterRuns`, `GateReading`, `SyncRestore` | exception register |
| `SemaphoreProtocol`, `AsyncSemaphore` | semaphore |
| `ClaimText`, `PairingProtocol`, `PairingReading`, `PairingController` | pairing and the claim file |
| `WinnerSelection`, `WinnerMeaning`, `WorkloadProfile` | benchmark winners |
| `Wrappers`, `StringOrder`, `Decimals`, `Digests` | shared helpers |

## Findings about the code

- `workload_profile` emits a `tie_breaker_reason` for winners that the release validator's field
  list does not contain, so a winner's profile is refused as it stands; `WorkloadProfile.AcceptedIffNoWinner` states it.
- The final `hard_failure` of `no_winner_reason_for_cells` is dead code: for counts that are not negative it is never
  reached (`WinnerSelection.HardFailureMeansAllFailed`), and the pipeline's counts are lengths of lists
  (beta/spec029.py:779-780). Outside those inputs it is reached exactly when nothing was produced and a runnable cell has
  a negative count (`WinnerSelection.FallThroughIff`, with a cell in `WinnerSelection.NegativeCountFallsThrough`).
- Flattening is not injective: an empty key, an inner dot or a trailing index in a key lets the reconciler report no
  drift between different trees (`HiddenDrift.EmptyKeyHidesDrift`, `HiddenDrift.DottedKeyHidesDrift`,
  `HiddenDrift.IndexedKeyHidesDrift`). On non-empty keys over a set of characters it hides nothing if and only if the
  set has no dot and not both brackets together with a digit (`HiddenDrift.DriftDecidesIff`), and the verdict of the
  whole reconciliation can be trusted for exactly those sets (`ReconcileVerdict.ReconcileDecidesIff`). That equal trees
  never drift holds for all keys.
- The ledger accepts two enrichment steps in sequence but not the same change in one step (`LedgerHistory.StepsCompose`).

## Model

| member | source | states |
|---|---|---|
| `JsonScanner.RawJsonPathScanner.SkipBlanks` | phase3-binary/Sources/MacProviderCore/ChatCompletionRequest.swift:853-862 | stops at the first byte that is not a JSON blank, or at the end |
| `JsonScanner.RawJsonPathScanner.SkipString` | phase3-binary/Sources/MacProviderCore/ChatCompletionRequest.swift:784-805 | accepts or rejects a string literal, and stops, exactly where the recursive definition says |
| `JsonScanner.RawJsonPathScanner.SkipNumber` | phase3-binary/Sources/MacProviderCore/ChatCompletionRequest.swift:807-845 | the three optional digit runs of a number, with the rules on leading zeros and empty runs |
| `JsonScanner.RawJsonPathScanner.ConsumeLiteral` | phase3-binary/Sources/MacProviderCore/ChatCompletionRequest.swift:847-851 | the bytes of the literal stand at the index, and the index moves behind them |
| `JsonScanner.RawJsonPathScanner.SkipValue` | phase3-binary/Sources/MacProviderCore/ChatCompletionRequest.swift:715-734 | the loop-and-recursion scanner agrees with the recursive definition of where a value ends, errors included |
| `JsonScanner.RawJsonPathScanner.SkipObject` | phase3-binary/Sources/MacProviderCore/ChatCompletionRequest.swift:736-755 | the loop over members agrees with the recursive definition |
| `JsonScanner.RawJsonPathScanner.SkipArray` | phase3-binary/Sources/MacProviderCore/ChatCompletionRequest.swift:757-772 | the loop over items agrees with the recursive definition |
| `JsonScanner.RawJsonPathScanner.FindInMembers` | phase3-binary/Sources/MacProviderCore/ChatCompletionRequest.swift:688-713 | the search loop over members, with its early returns, agrees with the recursive search |
| `JsonScanner.RawJsonPathScanner.FindInObject` | phase3-binary/Sources/MacProviderCore/ChatCompletionRequest.swift:681-713 | the search in one object, nested paths included |
| `JsonScanner.RawJsonPathScanner.ValueRange` | phase3-binary/Sources/MacProviderCore/ChatCompletionRequest.swift:675-679 | the search from the first non-blank byte |
| `JsonScanner.RawJsonValueByteCount` | phase3-binary/Sources/MacProviderCore/ChatCompletionRequest.swift:666-670 | the length of the range found; nil when nothing is found or the scan throws |
| `ScannerGrammar.ValueComplete` | phase3-binary/Sources/MacProviderCore/ChatCompletionRequest.swift:715-845 | every printed well-formed JSON value is scanned to its last byte, whatever follows it |
| `ScannerGrammar.ValueSound` | phase3-binary/Sources/MacProviderCore/ChatCompletionRequest.swift:715-845 | whatever the scanner steps over is blanks and one well-formed JSON value |
| `ScannerGrammar.SkipValueIsGrammar` | phase3-binary/Sources/MacProviderCore/ChatCompletionRequest.swift:715-845 | the scanner steps from `i` to `j` if and only if the grammar puts a value between them |
| `KeyPathLookup.LookupValueFirst` | phase3-binary/Sources/MacProviderCore/ChatCompletionRequest.swift:681-713 | the recursive lookup finds a member the path leads to, and the first one in document order |
| `KeyPathLookup.LookupDecodes` | phase3-binary/Sources/MacProviderCore/ChatCompletionRequest.swift:774-782 | the lookup reports an undecodable key only when the document has one |
| `KeyPathLookup.ValueRangeIsLookup` | phase3-binary/Sources/MacProviderCore/ChatCompletionRequest.swift:675-713 | on every printed document, whatever follows it, the byte search answers with exactly the bytes of the value the tree lookup finds, nil or an error in the same cases |
| `KeyPathLookup.RawByteCountIsPrintedLength` | phase3-binary/Sources/MacProviderCore/ChatCompletionRequest.swift:666-713 | the byte count is the printed length of the first match, nil exactly when no member matches |
| `KeyPathLookup.BeforeIsEarlier` | phase3-binary/Sources/MacProviderCore/ChatCompletionRequest.swift:681-713 | document order is byte order: of two places, the value at the first ends before the value at the second starts |
| `KeyPathLookup.FoundInObject` | phase3-binary/Sources/MacProviderCore/ChatCompletionRequest.swift:681-713 | whatever the buffer holds, a range the search answers with is exactly one well-formed value |
| `ContainerDepth.NestingExceeds` | phase3-binary/Sources/MacProviderCore/ChatCompletionRequest.swift:934-946 | the explicit-stack probe answers true exactly when more containers than the limit nest in each other, for every integer limit |
| `ContainerDepth.DepthIsLongestNest` | phase3-binary/Sources/MacProviderCore/ChatCompletionRequest.swift:927-946 | the depth is at least n exactly when n containers lie each directly inside the one before |
| `ContainerDepth.ValidateTool` | phase3-binary/Sources/MacProviderCore/ChatCompletionRequest.swift:881-924 | one tool is accepted exactly when it is a function tool with a name and object parameters, and no member of it nests more than 32 containers |
| `ContainerDepth.ToolOkMeans` | phase3-binary/Sources/MacProviderCore/ChatCompletionRequest.swift:881-924 | the same for the specification the method is proved against |
| `ContainerDepth.ValidateTools` | phase3-binary/Sources/MacProviderCore/ChatCompletionRequest.swift:875-925 | the whole list; a rejection names the first invalid tool |
| `ContainerDepth.AcceptedToolIsBounded` | phase3-binary/Sources/MacProviderCore/ChatCompletionRequest.swift:895-923 | probing members one by one bounds the depth of the whole tool by the limit plus two |
| `ContainerDepth.AcceptedToolsAreBounded` | phase3-binary/Sources/MacProviderCore/ChatCompletionRequest.swift:875-925 | and of the whole list by the limit plus three |
| `ContainerDepth.BoundIsReached` | phase3-binary/Sources/MacProviderCore/ChatCompletionRequest.swift:906-923 | some accepted tool has exactly that depth |
| `RequestValidation.ScanCalls` | phase3-binary/Sources/MacProviderCore/ChatCompletionRequest.swift:1040-1068 | the first loop: counts, ids, duplicates and argument bytes, and the message of the first call of each id |
| `RequestValidation.CheckResults` | phase3-binary/Sources/MacProviderCore/ChatCompletionRequest.swift:1070-1095 | the second loop: every tool message answers a call of its own made in an earlier message, within the size caps |
| `RequestValidation.Validate` | phase3-binary/Sources/MacProviderCore/ChatCompletionRequest.swift:1035-1096 | accepts exactly the histories that are well-formed in that sense; an error always names something that is wrong |
| `MessageHistory.ErrorsAreReal` | phase3-binary/Sources/MacProviderCore/ChatCompletionRequest.swift:1035-1096 | no error applies to a well-formed history |
| `HistoryReading.WellFormedMeans` | phase3-binary/Sources/MacProviderCore/ChatCompletionRequest.swift:1026-1108 | well-formed on the messages alone: the sums within 128 calls, 2 MiB of arguments and 1 MiB of results, proper ids, no id for two calls, and every tool message answering an earlier call of its own within 256 KiB |
| `HistoryReading.IdsMean` | phase3-binary/Sources/MacProviderCore/ChatCompletionRequest.swift:1098-1107 | the id test by character codes |
| `MessageHistory.NoMoreResultsThanCalls` | phase3-binary/Sources/MacProviderCore/ChatCompletionRequest.swift:1079-1088 | results map injectively to calls, so there are never more results than calls |
| `ConfigTree.FlattenTree` | ops/pearl/config/reconcile_pearl_config.py:174-191 | the merging recursion computes the flat table of a tree |
| `PythonEquality.TextualEquality` | ops/pearl/config/reconcile_pearl_config.py:115-116 | on trees without numbers and booleans the comparison is equality |
| `PythonEquality.NumbersCompare` | ops/pearl/config/reconcile_pearl_config.py:115-116 | numbers and booleans compare by value across their types, and with nothing else |
| `FlattenLossless.RenderInjective` | ops/pearl/config/reconcile_pearl_config.py:178-189 | over an unambiguous alphabet (no dot, and not both brackets and a digit) different paths of non-empty keys have different path strings |
| `FlattenLossless.FlattenHolds` | ops/pearl/config/reconcile_pearl_config.py:174-191 | over such an alphabet the table lists every leaf under its own path and nothing else |
| `ConfigDrift.CompareFlattened` | ops/pearl/config/reconcile_pearl_config.py:284-298 | the comparison loop over the union of the paths |
| `ConfigDrift.DriftsExact` | ops/pearl/config/reconcile_pearl_config.py:284-298 | a drift is reported for exactly the paths whose entries differ |
| `ConfigDrift.DriftPathsDistinct` | ops/pearl/config/reconcile_pearl_config.py:284-298 | no path is reported twice |
| `ConfigDrift.NoDriftIffEqual` | ops/pearl/config/reconcile_pearl_config.py:174-298 | for non-empty keys over an unambiguous alphabet: no drift if and only if the trees are equal in the sense of Python |
| `HiddenDrift.EqualTreesNeverDrift` | ops/pearl/config/reconcile_pearl_config.py:174-298 | equal trees never drift, for all keys |
| `HiddenDrift.EmptyKeyHidesDrift` | ops/pearl/config/reconcile_pearl_config.py:174-191 | the other half fails for the empty key: a leaf and the same leaf under it differ without drift |
| `HiddenDrift.DottedKeyHidesDrift` | ops/pearl/config/reconcile_pearl_config.py:174-191 | it fails for every key with a dot behind its first character |
| `HiddenDrift.IndexedKeyHidesDrift` | ops/pearl/config/reconcile_pearl_config.py:174-191 | and for every key that ends like a list index, whatever the index |
| `HiddenDrift.DriftDecidesIff` | ops/pearl/config/reconcile_pearl_config.py:174-298 | for every set of characters: no drift decides equality on all trees with non-empty keys over it if and only if the set has no dot and not both brackets together with a digit |
| `ConfigReconcile.ClassifyConfigDrifts` | ops/pearl/config/reconcile_pearl_config.py:305-345 | the three lists of findings the loop appends to |
| `ConfigReconcile.OneFindingPerDrift` | ops/pearl/config/reconcile_pearl_config.py:305-345 | every drift yields exactly one finding in one of the three lists |
| `ConfigReconcile.NothingUnknown` | ops/pearl/config/reconcile_pearl_config.py:305-345 | nothing is unknown exactly when every drift is a known one of the stated kind and values |
| `ConfigReconcile.ProviderIndex` | ops/pearl/config/reconcile_pearl_config.py:194-242 | the table of rows by id and the findings on rows without an id of their own |
| `ConfigReconcile.IndexFindingsClean` | ops/pearl/config/reconcile_pearl_config.py:194-242 | nothing is reported exactly when every row has an id of its own |
| `ConfigReconcile.FirstRowStays` | ops/pearl/config/reconcile_pearl_config.py:194-242 | of rows that share an id the first is indexed |
| `ConfigReconcile.ClassifyLiveOnlyFields` | ops/pearl/config/reconcile_pearl_config.py:445-477 | the findings on the fields of a row only the live side has |
| `ConfigReconcile.ClassifyProviderRow` | ops/pearl/config/reconcile_pearl_config.py:356-442 | the findings on one provider id |
| `ConfigReconcile.ClassifyProviderRows` | ops/pearl/config/reconcile_pearl_config.py:348-442 | the findings on all ids of either side in sorted order |
| `ConfigReconcile.CheckConfig` | ops/pearl/config/reconcile_pearl_config.py:831-915 | nothing unknown exactly when every drift outside the provider list is explained |
| `ConfigReconcile.CheckProviders` | ops/pearl/config/reconcile_pearl_config.py:831-915 | nothing unknown exactly when both lists are clean and every row is reconciled |
| `ReconcileVerdict.Reconcile` | ops/pearl/config/reconcile_pearl_config.py:831-915 | exit status 0 exactly when nothing at all is unknown; then every path of the flat tables that differs has a rule of its kind that states no other value, and over an unambiguous alphabet the status is 0 exactly when the differences of the trees and rows are all stated |
| `ReconcileVerdict.ReconciledIffAccounted` | ops/pearl/config/reconcile_pearl_config.py:831-915 | for non-empty keys over an unambiguous alphabet: every leaf that differs has a rule of its kind whose stated values are the ones found, every provider row has an id of its own, tracked rows are live and equal, and rows only the live side has are listed with listed and typed fields |
| `ReconcileVerdict.PathsStatedMean` | ops/pearl/config/reconcile_pearl_config.py:305-345 | the same account of the rules on the flat tables, for all keys |
| `ReconcileVerdict.ListsMean` | ops/pearl/config/reconcile_pearl_config.py:305-345 | which of the three lists reports a drift: unknown without a rule of its kind and values, else inference or evidence as the rule says |
| `ReconcileVerdict.ReconcileDecidesIff` | ops/pearl/config/reconcile_pearl_config.py:831-915 | the verdict agrees with that account on all trees over an alphabet if and only if the alphabet is unambiguous |
| `JsonPointer.EscapeIsPerCharacter` | phase3-binary/Sources/MacProviderCore/JSONSchemaValidator.swift:395-398 | the two replacements in sequence escape each character on its own |
| `JsonPointer.EscapeRoundTrip` | phase3-binary/Sources/MacProviderCore/JSONSchemaValidator.swift:395-398 | unescaping undoes escaping, and an escaped token has no slash |
| `JsonPointer.PointerRoundTrip` | phase3-binary/Sources/MacProviderCore/JSONSchemaValidator.swift:395-398 | every path of tokens is recovered from the pointer built for it |
| `JsonPointer.PointersDistinct` | phase3-binary/Sources/MacProviderCore/JSONSchemaValidator.swift:395-398 | different paths have different pointers |
| `JsonSchema.RawEqualsSymmetric` | phase3-binary/Sources/MacProviderCore/JSONSchemaValidator.swift:344-373 | raw equality is symmetric |
| `JsonReadings.RawEqualsIsEquality` | phase3-binary/Sources/MacProviderCore/JSONSchemaValidator.swift:344-373 | without doubles, raw equality is equality |
| `JsonReadings.DepthIsDescent` | phase3-binary/Sources/MacProviderCore/JSONSchemaValidator.swift:308-317 | the depth exceeds n exactly when one can step down n times |
| `JsonSchema.DepthBound` | phase3-binary/Sources/MacProviderCore/JSONSchemaValidator.swift:308-317 | the depth of a container against that of its children |
| `SchemaMeaning.KeysExact` | phase3-binary/Sources/MacProviderCore/JSONSchemaValidator.swift:216-233 | for an accepted object schema, the two key checks demand exactly the declared keys |
| `SchemaMeaning.InstanceIsMeaning` | phase3-binary/Sources/MacProviderCore/JSONSchemaValidator.swift:198-278 | on an accepted schema the instance check decides membership in the type the schema denotes: closed records, lists, and leaves of one kind of JSON value within the stated constant, choices and limits |
| `SchemaMeaning.LeafTypesMean` | phase3-binary/Sources/MacProviderCore/JSONSchemaValidator.swift:319-328 | the bare types string, boolean, integer, number and null accept exactly the values of that constructor, number both of its two |
| `SchemaMeaning.AcceptedNests` | phase3-binary/Sources/MacProviderCore/JSONSchemaValidator.swift:64-67 | the shape check bounds how deep the denoted type nests |
| `SchemaMeaning.DepthFollowsShape` | phase3-binary/Sources/MacProviderCore/JSONSchemaValidator.swift:308-317 | a member of a type is never deeper than the type nests |
| `SchemaMeaning.ValidatorIsMeaning` | phase3-binary/Sources/MacProviderCore/JSONSchemaValidator.swift:29-34 | so on accepted schemas the separate depth check never rejects |
| `SchemaNotation.NotationReadsBack` | phase3-binary/Sources/MacProviderCore/JSONSchemaValidator.swift:64-161 | the schema written for a type reads as that type |
| `SchemaNotation.NotationIsAccepted` | phase3-binary/Sources/MacProviderCore/JSONSchemaValidator.swift:64-184 | and is accepted wherever its nesting fits |
| `SchemaNotation.NotationIsExact` | phase3-binary/Sources/MacProviderCore/JSONSchemaValidator.swift:64-184 | a type has an accepted schema if and only if its constants and choices are of its kinds, its limits are those of numbers, and it nests at most 32 levels |
| `SchemaNotation.AcceptedKeywords` | phase3-binary/Sources/MacProviderCore/JSONSchemaValidator.swift:10-23 | an accepted schema has no keyword but the twelve, and at its root the dialect |
| `SchemaFaults.SchemaFaultIsReal` | phase3-binary/Sources/MacProviderCore/JSONSchemaValidator.swift:64-184 | a fault, the named rule broken at the node or keyword a path leads to, keeps a schema from being accepted |
| `SchemaFaults.InstanceFaultIsReal` | phase3-binary/Sources/MacProviderCore/JSONSchemaValidator.swift:198-278 | a value that fails the named test against the schema node on the same path keeps an instance from being accepted |
| `SchemaFaults.KeywordNeverBlamed` | phase3-binary/Sources/MacProviderCore/JSONSchemaValidator.swift:198-278 | on an accepted schema no instance error blames a keyword of the schema |
| `SchemaValidator.ValidateSchemaNode` | phase3-binary/Sources/MacProviderCore/JSONSchemaValidator.swift:64-147 | accepts exactly the schemas of the strict subset; a rejection extends its pointer by a path to a node or keyword that breaks the rule its error names |
| `SchemaValidator.ValidateSchemaShape` | phase3-binary/Sources/MacProviderCore/JSONSchemaValidator.swift:25-27 | the same from the root: the pointer decodes to the path of such a fault |
| `SchemaValidator.CheckConstAndEnum` | phase3-binary/Sources/MacProviderCore/JSONSchemaValidator.swift:149-161 | the rules on `const` and `enum`; a fault names the keyword or the position that breaks them |
| `SchemaValidator.CheckNumericBounds` | phase3-binary/Sources/MacProviderCore/JSONSchemaValidator.swift:165-184 | the rules on `minimum`, `maximum` and `multipleOf`; a fault names the keyword that breaks them |
| `SchemaValidator.CollectRequired` | phase3-binary/Sources/MacProviderCore/JSONSchemaValidator.swift:105-120 | the loop that fills the set of required names |
| `SchemaValidator.CheckNumber` | phase3-binary/Sources/MacProviderCore/JSONSchemaValidator.swift:249-278 | a number is within its bounds, or the fault names the bound it misses |
| `SchemaValidator.ValidateInstanceNode` | phase3-binary/Sources/MacProviderCore/JSONSchemaValidator.swift:198-278 | accepts exactly the conforming instances; a rejection extends its pointer by a path to a value that fails the named test against the schema node it is checked with; it aborts only on a schema with an untyped node |
| `SchemaValidator.ValidateInstance` | phase3-binary/Sources/MacProviderCore/JSONSchemaValidator.swift:29-34 | the same from the root, with the depth check; when the schema was accepted it accepts exactly the members of the denoted type, never aborts and never blames a keyword |
| `SchemaValidator.AcceptedIsTyped` | phase3-binary/Sources/MacProviderCore/JSONSchemaValidator.swift:64-147 | every node of an accepted schema has a type |
| `SemaphoreProtocol.AcquireKeeps` | phase3-binary/Sources/macprovider-cli/AsyncSemaphore.swift:28-43 | waiting keeps the run invariant |
| `SemaphoreProtocol.FinishKeeps` | phase3-binary/Sources/macprovider-cli/AsyncSemaphore.swift:45-51 | signalling keeps it |
| `SemaphoreProtocol.CancelKeeps` | phase3-binary/Sources/macprovider-cli/AsyncSemaphore.swift:53-58 | cancelling keeps it |
| `SemaphoreProtocol.RunInvariant` | phase3-binary/Sources/macprovider-cli/AsyncSemaphore.swift:9-58 | the invariant (permits plus holders are the capacity, the queue is what arrived and was not resumed) holds after every run |
| `SemaphoreProtocol.PermitsAreTheValue` | phase3-binary/Sources/macprovider-cli/AsyncSemaphore.swift:9-58 | after every run permits and holders add up to the value given, to zero for a negative one, so never more calls hold a permit |
| `SemaphoreProtocol.GrantedAtOnceIff` | phase3-binary/Sources/macprovider-cli/AsyncSemaphore.swift:28-43 | in every reachable state a call gets its permit at once exactly when fewer calls than the value hold one; otherwise it queues up last |
| `SemaphoreProtocol.DoneHandsOver` | phase3-binary/Sources/macprovider-cli/AsyncSemaphore.swift:45-51 | a call that is done frees its place or hands it to the longest waiter |
| `SemaphoreProtocol.PossibleIff` | phase3-binary/Sources/macprovider-cli/AsyncSemaphore.swift:9-58 | a run can go on with any new call, the end of any holder and any cancellation, and with nothing else |
| `SemaphoreProtocol.ResumedExactlyOnce` | phase3-binary/Sources/macprovider-cli/AsyncSemaphore.swift:28-58 | a call that had to wait is queued, cancelled or granted, exactly one of them, and resumed at most once |
| `SemaphoreProtocol.GrantsInArrivalOrder` | phase3-binary/Sources/macprovider-cli/AsyncSemaphore.swift:45-51 | permits go to waiters in order of arrival |
| `SemaphoreProtocol.CancelConservesPermits` | phase3-binary/Sources/macprovider-cli/AsyncSemaphore.swift:53-58 | cancelling at any moment frees and takes no permit and leaves the queue as it was, in order, without the cancelled call |
| `SemaphoreProtocol.NoLostWakeup` | phase3-binary/Sources/macprovider-cli/AsyncSemaphore.swift:28-51 | with a positive value nobody waits while nobody holds; otherwise nobody is ever granted |
| `SemaphoreProtocol.WaitersCanBeServed` | phase3-binary/Sources/macprovider-cli/AsyncSemaphore.swift:45-51 | from every reachable state as many signals as there are waiters serve them all |
| `AsyncSemaphore.Semaphore.constructor` | phase3-binary/Sources/macprovider-cli/AsyncSemaphore.swift:12-14 | as many permits as the value, none for a negative one |
| `AsyncSemaphore.Semaphore.Wait` | phase3-binary/Sources/macprovider-cli/AsyncSemaphore.swift:28-43 | the actor step is the protocol step: granted exactly with a permit left, which it takes; otherwise last in the queue |
| `AsyncSemaphore.Semaphore.Signal` | phase3-binary/Sources/macprovider-cli/AsyncSemaphore.swift:45-51 | the actor step is the protocol step: one more permit, or the first waiter holds it |
| `AsyncSemaphore.Semaphore.CancelWaiter` | phase3-binary/Sources/macprovider-cli/AsyncSemaphore.swift:53-58 | the actor step is the protocol step; an unknown id changes nothing |
| `ReleaseLedger.ValidateReleaseLedger` | scripts/catalog-release.py:767-845 | accepts exactly the valid ledgers and returns their content |
| `LedgerMeaning.ValidMeans` | scripts/catalog-release.py:767-845 | valid on the fields: two, three or four feeds with positive sizes, digests, signers and versions, the first two under the id itself; tombstones with two different bindings at least; no id with both |
| `LedgerMeaning.ParsedMeans` | scripts/catalog-release.py:767-778 | a version 1 file has no tombstones, a version 2 file its own, no other file is read |
| `ReleaseLedger.RequireLedgerEvolution` | scripts/catalog-release.py:919-941 | the loops accept exactly the pairs in the evolution relation |
| `LedgerMeaning.EvolvesMeans` | scripts/catalog-release.py:877-941 | a step is accepted exactly when every record stays as it is or gains one feed, Tier-2 catalog or then rate card, every tombstone stays, and every new record has all four feeds |
| `ReleaseLedger.UpdatedReleaseLedger` | scripts/catalog-release.py:1596-1611 | succeeds exactly when the base evolves into the current ledger, the id is not tombstoned and the record is a step or a complete new one; then it adds that record and nothing else, and the result evolves from the current ledger |
| `ReleaseLedger.UpdatedIsValid` | scripts/catalog-release.py:1596-1611 | the updated ledger is valid again exactly when the new record is |
| `LedgerHistory.StepAddsOneFeed` | scripts/catalog-release.py:877-916 | one accepted step leaves a record alone or adds exactly one feed |
| `LedgerHistory.EvolvesReflexive` | scripts/catalog-release.py:919-941 | every ledger evolves into itself, so an unchanged file passes |
| `LedgerHistory.StepsCompose` | scripts/catalog-release.py:919-941 | two accepted steps are one accepted step exactly when no record jumps from two feeds to four |
| `LedgerHistory.HistoryGrows` | scripts/catalog-release.py:919-941 | along every accepted history published records and tombstones only grow |
| `LedgerHistory.NothingIsLost` | scripts/catalog-release.py:919-941 | no published feed and no tombstone is ever changed or dropped |
| `LedgerHistory.NeverBothFates` | scripts/catalog-release.py:767-941 | no id is published in one version and tombstoned in another |
| `LedgerHistory.AtMostTwoChanges` | scripts/catalog-release.py:877-941 | a record changes once per added feed, at most twice, and never if it was added later |
| `LedgerHistory.HistoryIsTwoSteps` | scripts/catalog-release.py:877-941 | any history is matched by two accepted steps through one valid ledger |
| `LedgerHistory.UpdateAgainstBase` | scripts/catalog-release.py:1596-1611 | when an update that evolves from the current ledger also evolves from the base |
| `Tier2Catalog.ClaimIsUnique` | scripts/catalog-release.py:972-994 | at most one row can be claimed for a model |
| `Tier2Catalog.ClaimIgnoresOrder` | scripts/catalog-release.py:972-994 | the claimed rows do not depend on the order of the catalog |
| `Tier2Catalog.ClaimBelongs` | scripts/catalog-release.py:294-306 | on a validated catalog the claimed row declares the model it is claimed for |
| `StagingMeaning.ClaimsAllMean` | scripts/catalog-release.py:972-994 | the claimed row of a declared model is the one under its own key, or else the one with most memory and then the smallest key |
| `StagingMeaning.BindingDescribes` | scripts/catalog-release.py:997-1036 | the binding describes exactly the claimed rows that have a hash |
| `Tier2Catalog.BindingFollowsClaims` | scripts/catalog-release.py:997-1036 | the binding holds the hash of the claimed row for every model that has one, and no other |
| `Tier2Catalog.StagingNeedsDisagreement` | scripts/catalog-release.py:1437-1547 | staging with the derived binding changes something exactly when the check would not accept the entries |
| `Tier2Catalog.StagedIsAccepted` | scripts/catalog-release.py:1437-1456 | the check accepts every template staged with the derived binding |
| `StagingMeaning.StagedMeans` | scripts/catalog-release.py:1512-1547 | each entry keeps its id and what was reviewed, and takes the hash of the claimed row where that has one |
| `StagingMeaning.CheckMeans` | scripts/catalog-release.py:1415-1456 | the check accepts exactly the Tier-2 catalogs that agree with themselves and with every claimed row that has a hash |
| `Tier2Staging.CheckShadow` | scripts/catalog-release.py:297-304 | rejects exactly the catalogs with a row under the key of another model |
| `Tier2Staging.CheckHashes` | scripts/catalog-release.py:307-319 | rejects exactly the catalogs with two hashes for one model |
| `Tier2Staging.PickBest` | scripts/catalog-release.py:986-992 | the best-so-far loop finds the row with most memory, then smallest key |
| `Tier2Staging.HighestClaimedRows` | scripts/catalog-release.py:972-994 | computes the claimed row of every model |
| `Tier2Staging.DeriveBinding` | scripts/catalog-release.py:997-1036 | the binding, or a failure without hashes or with conflicting ones |
| `Tier2Staging.StageRepublish` | scripts/catalog-release.py:1512-1547 | the staged entries and exactly the changed positions; only hashes change, and staging again changes nothing |
| `Tier2Staging.LoadModels` | scripts/catalog-release.py:1415-1434 | loads exactly the Tier-2 catalogs without blank ids, malformed or conflicting hashes |
| `Tier2Staging.CheckBinding` | scripts/catalog-release.py:1437-1456 | accepts exactly the Tier-2 catalogs that agree on every shared model |
| `Tier2Staging.CheckTemplate` | scripts/catalog-release.py:1478-1508 | accepts exactly the templates with distinct non-blank ids and well-formed hashes |
| `Tier2Staging.StageAndCheck` | scripts/catalog-release.py:1838-1858 | writes a template exactly when the rows and the template are proper and some claimed row has a hash, so its last check never fails; every entry written is the staged one, and together they agree with the claimed rows |
| `ExceptionRegister.Dedupe` | scripts/production_exceptions.py:198-207 | keeps one of every finding, and errors exactly when there were errors |
| `ExceptionRegister.ValidateTombstones` | scripts/production_exceptions.py:564-614 | the ids of the well-named rows and one finding per defect |
| `ExceptionRegister.CheckTombstoned` | scripts/production_exceptions.py:528-545 | the findings the loop appends |
| `ExceptionRegister.CheckAntiResurrection` | scripts/production_exceptions.py:617-647 | the findings the loop appends |
| `ExceptionRegister.CheckExpirySelfExtension` | scripts/production_exceptions.py:650-681 | the findings the loop appends |
| `ExceptionRegister.CheckExpiredReactivation` | scripts/production_exceptions.py:851-873 | the findings the loop appends |
| `ExceptionRegister.ValidateRegister` | scripts/production_exceptions.py:295-561 | no error exactly when the register is consistent with its tombstones, the base and the predecessor; the findings are exactly those of the checks, without repetition |
| `RegisterMeaning.AcceptedIffConsistent` | scripts/production_exceptions.py:524-561 | acceptance in terms of the data: unique ids, removed if and only if tombstoned, no tombstone dropped, nothing revived, extended or reactivated |
| `RegisterReading.AcceptedIffFits` | scripts/production_exceptions.py:524-561 | the same on rows, statuses and dates: nothing returns from removed or expired, no date of an open row moves later, removed rows and no others are buried, and nothing buried is dug up |
| `RegisterReading.ErrorsMean` | scripts/production_exceptions.py:524-681 | an error is reported for an id exactly when some row with that id has the fault it names |
| `RegisterReading.FileErrorsMean` | scripts/production_exceptions.py:564-614 | an error is reported for a tombstone file exactly when the file has the fault it names |
| `ExceptionIds.IdMeans` | scripts/production_exceptions.py:59-59 | the id test accepts exactly `exc-` and non-empty groups of lower-case letters and digits joined by dashes |
| `HistorySummary.EarliestDecides` | scripts/production_exceptions.py:811-836 | the earliest date of a history decides every comparison some date of it decides |
| `HistorySummary.SummaryCompares` | scripts/production_exceptions.py:798-848 | what comparing with the summary amounts to for every register, doubled ids included |
| `HistorySummary.SummaryComparesAll` | scripts/production_exceptions.py:798-873 | with unique ids, checking against the summary is checking against every row of the history |
| `HistorySummary.DoubleIsBlamed` | scripts/production_exceptions.py:838-848 | with a doubled id the summary blames a row for its own double |
| `HistorySummary.UnionKeepsIds` | scripts/production_exceptions.py:777-795 | the union of tombstone files loses no id |
| `HistorySummary.FirstSeenWins` | scripts/production_exceptions.py:777-795 | the first row seen for an id is the one kept |
| `HistoryMethods.EarliestExpiryPreviousRegister` | scripts/production_exceptions.py:798-848 | the loops over the history and the edit of the copy compute the summary |
| `HistoryMethods.UnionTombstones` | scripts/production_exceptions.py:777-795 | the loops compute the union |
| `RegisterRuns.RemovedStaysRemoved` | scripts/production_exceptions.py:524-561 | over every run checked version by version, an exception once removed is removed in every later version that lists it |
| `RegisterRuns.ListedDateNeverLater` | scripts/production_exceptions.py:650-681 | over every such run, an exception that stays listed, dated and open never gets a later expiry |
| `GateReading.OpenDatesNeverLater` | scripts/production_exceptions.py:650-681 | the same on the rows: open and dated in every version, so never dated later |
| `RegisterRuns.GateChecksAllHistory` | scripts/gate-production-exceptions-promote.sh:81-100 | the promotion gate passes exactly when the tip stands up to every register and tombstone file of the history |
| `GateReading.GateMeans` | scripts/gate-production-exceptions-promote.sh:81-100 | the gate on the whole history: no open row after an expired row of its id or dated later than an open one, every id ever buried still buried, and the first tombstone of every id proper |
| `RegisterRuns.PromoteGate` | scripts/gate-production-exceptions-promote.sh:81-100 | computes that verdict |
| `RegisterRuns.GatedRunsNeverRelapse` | scripts/gate-production-exceptions-promote.sh:81-100 | over every gated run nothing returns from removed or expired, and no readable expiry is followed by a later readable one |
| `RegisterRuns.DroppedDatePasses` | scripts/production_exceptions.py:650-681 | the gate lets a planned row drop its expiry: dates are compared with dates only |
| `SyncRestore.MergedHolds` | scripts/production_exceptions.py:721-731 | the merged register holds the stale row of every id the stale register has, and the current row of every other |
| `SyncRestore.MergedMeans` | scripts/production_exceptions.py:721-731 | the same by position: the last stale row of an id, or the last current one where the stale register has none |
| `SyncRestore.MergeRows` | scripts/production_exceptions.py:721-731 | the two dictionary loops compute the merged register |
| `SyncRestore.SafeIffStaleIsSafe` | scripts/production_exceptions.py:732-747 | the checks on the merged register come down to the stale rows |
| `SyncRestore.ValidateStale` | scripts/production_exceptions.py:684-704 | the findings on a stale register, missing tombstones forgiven, under their stale codes, and when there is no error |
| `SyncRestore.SimulateConfigSyncRestore` | scripts/production_exceptions.py:707-747 | no error exactly when both registers stand and every stale row that is buried is removed; then no restored row is buried or was removed, unless it is removed itself |
| `ClaimText.WrittenIsRead` | phase3-binary/Sources/MacProviderCore/ClaimURLFile.swift:48-94 | reading undoes writing for values without line breaks, the expiry to the second |
| `ClaimText.StubIsAbsent` | phase3-binary/Sources/MacProviderCore/ClaimURLFile.swift:58-79 | the stub reads as no pairing |
| `ClaimText.BodyText` | phase3-binary/Sources/MacProviderCore/ClaimURLFile.swift:48-56 | the three lines of the file |
| `ClaimText.LastLineWins` | phase3-binary/Sources/MacProviderCore/ClaimURLFile.swift:80-85 | a key has the value of the last line that names it |
| `PairingController.ClaimURLFile.Read` | phase3-binary/Sources/MacProviderCore/ClaimURLFile.swift:72-94 | the line loop computes the parsed record |
| `PairingProtocol.LastEffectiveDecides` | phase3-binary/Sources/MacProviderCore/PairingController.swift:68-101 | the claim after a run is that of its last effective event |
| `PairingProtocol.NoEffectiveEvent` | phase3-binary/Sources/MacProviderCore/PairingController.swift:68-101 | without an effective event nothing is stored |
| `PairingProtocol.RunsStayOneLine` | phase3-binary/Sources/MacProviderCore/PairingController.swift:72-79 | only text that cannot break its line is ever stored |
| `PairingProtocol.EveryRunIsReadable` | phase3-binary/Sources/MacProviderCore/ClaimURLFile.swift:72-94 | after every run of events the file reads back as the stored claim and never as an invalid body |
| `PairingController.Controller.HandlePairingMaterial` | phase3-binary/Sources/MacProviderCore/PairingController.swift:68-83 | absent material is ignored, invalid material throws before anything is written, valid material is written with its token, its URL and an expiry 600 seconds on |
| `PairingController.Controller.HandleBound` | phase3-binary/Sources/MacProviderCore/PairingController.swift:85-92 | a valid login deletes the claim and stores the owner |
| `PairingController.Controller.HandleNeedsClaim` | phase3-binary/Sources/MacProviderCore/PairingController.swift:98-101 | writes the stub |
| `PairingReading.RunReadsAs` | phase3-binary/Sources/MacProviderCore/PairingController.swift:68-101 | on the events: after a last change by valid pairing material the file reads as its token, its URL and its time plus 600 seconds, after any other last change, or none, as absent |
| `PairingReading.RunOwnedAs` | phase3-binary/Sources/MacProviderCore/PairingController.swift:85-92 | the owner after a run is the login of the last valid bound event |
| `PairingReading.OutcomeMeans` | phase3-binary/Sources/MacProviderCore/PairingController.swift:68-92 | which events are refused, and with which error |
| `PairingController.RunThenRead` | phase3-binary/Sources/MacProviderCore/PairingController.swift:68-101 | any run of events followed by a read gives what the events say, claim and owner |
| `WinnerSelection.FirstLeastIsLeast` | beta/spec029.py:461-461 | no passing cell comes before the chosen one in the sort key |
| `WinnerSelection.WinnerIsBest` | beta/spec029.py:428-471 | the winner is a passing cell of its partition and least among them |
| `WinnerSelection.WinnerIffPassing` | beta/spec029.py:459-474 | there is a winner exactly when some cell of the partition passes |
| `WinnerMeaning.WinnerExistsIff` | beta/spec029.py:428-474 | a winner exists exactly when some cell of the partition ran, has 20 samples, no leak and a 95th percentile within the limit of its workload |
| `WinnerMeaning.WinnerMeans` | beta/spec029.py:459-500 | among those cells the winner is clean if any is; among equally clean ones none is faster, then none has a lower 95th percentile, then none a smaller context, then none a smaller concurrency, then none a smaller text |
| `WinnerMeaning.LabelMeans` | beta/spec029.py:503-521 | the label names the first respect in which the winner beats the best of the other competing cells |
| `WinnerMeaning.ReasonMeans` | beta/spec029.py:477-488 | the reason on the samples of the cells that could run: none evaluated, some with 20, some at all, or hard failure |
| `WinnerMeaning.CountMeans` | beta/spec029.py:452-458 | the reported count is the most samples of a cell of the partition that could run |
| `WinnerMeaning.ChoiceMeans` | beta/spec029.py:428-450 | when a choice is made at all, and over how many cells |
| `WinnerSelection.SelectionIgnoresOrder` | beta/spec029.py:428-500 | the verdict and the recommended tuple do not depend on the order of the cells |
| `WinnerSelection.SelectionOfPermutation` | beta/spec029.py:428-521 | a permutation of the cells moreover leaves the number of evaluated cells and the tie-breaker label alone |
| `WinnerSelection.TieBreakerIgnoresOrder` | beta/spec029.py:503-521 | the tie-breaker label depends on the multiset of sort keys only |
| `WinnerSelection.HighestIsMaximum` | beta/spec029.py:452-458 | the reported count is the maximum over productive cells, 0 without one |
| `WinnerSelection.FallThroughIff` | beta/spec029.py:477-488 | the last `hard_failure` is reached exactly when nothing was produced and a runnable cell has a negative sample count |
| `WinnerSelection.HardFailureMeansAllFailed` | beta/spec029.py:477-488 | for counts that are not negative the last branch is dead, and `hard_failure` is reported exactly when there are cells and all of them failed hard |
| `WinnerSelection.NegativeCountFallsThrough` | beta/spec029.py:477-488 | a runnable cell with count -1 alone reaches the last branch |
| `WorkloadProfile.NoWinnerMeetsRules` | scripts/catalog-release.py:182-194 | every no-winner profile meets the reason and sample-count rules, for all cells |
| `WorkloadProfile.MetricsMean` | scripts/catalog-release.py:174-181 | which measurements the validator takes |
| `WorkloadProfile.RefusedProfiles` | scripts/catalog-release.py:157-194 | what the validator refuses in a profile without a winner |
| `WorkloadProfile.ProfileReports` | beta/spec029.py:524-563 | a profile reports the measurements of the winner, or no measurement and the count |
| `WorkloadProfile.WinnerMeetsGate` | beta/spec029.py:158-168 | a winner's metrics are within its gate |
| `WorkloadProfile.AcceptedIffNoWinner` | scripts/catalog-release.py:157-194 | the validator accepts an emitted profile exactly when there is no winner and the source is named |

## Left out

- Reading JSON and YAML text into values, apart from the raw scanner: the modelled functions start from parsed data, and
  field type checks that the parsed types already express are not repeated.
- Decoding of string escapes in the raw scanner: it is a function parameter; the grammar allows any byte after a
  backslash and any four bytes after `\u`, as the scanner does.
- Unicode canonical equivalence and grapheme clusters: strings are sequences of scalar values. Lower-casing and trimming
  of model ids is a function parameter; both orders in which the source applies them are taken to agree.
- Floating point: arithmetic is over `real`; not-a-number, infinities and the `multipleOf` tolerance are not modelled.
- Which of several errors a validator reports first when the source iterates over a dictionary: the model iterates in
  sorted order, and the contracts do not depend on it.
- Dates: formatting and parsing are parameters with the law that reading a formatted date gives it back to the second.
- URL structure checks of the claim URL (scheme, host, path, token): one boolean input. Opening a browser is not modelled.
- File permissions, atomic renames and failing file operations: writing and deleting succeed.
- Field-by-field checks of exception rows, their warnings and the gate's promotion of warnings to errors: their findings
  are an input of the register check.
- Messages, masking of values and owner or classification texts of the reconciler's findings; the overlay and environment
  findings are inputs.
- The release validator's rules for recommended tuples of winners: one boolean input, since emitted winner profiles are
  refused before they are read.
- Serialisation of staged catalogs and bindings to bytes, and their hashes: lists are handed over as they are.
- The semaphore's continuations and the Swift scheduler: steps are atomic, as actor isolation makes them.
- Tier2Staging.CheckTemplate: only the rules on ids and hashes; kind, scope, source, memory and notes of a template are
  field type checks that staging neither reads nor changes.
- ExceptionRegister.ValidateTombstones: the file-level checks and the single field checks of a tombstone row are one flag
  per row, an input, since no later check reads those fields.
- File names of the four feeds of a release: a datatype with one constructor per name and one for all others.
- Stop-token filtering, the HTTP layer, the model runtime, report and demo code, signing and upload: they would only add
  easy members or input and output.
