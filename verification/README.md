# Camel Kamelets: a verified model

Apache Camel Kamelets is a catalog of route templates with Go API types, a validator, a software
bill of materials and a scanner around it. This project models the parts that carry state,
ordering, aliasing or round-trip obligations and proves what they promise. Run
`dafny verify dfyconfig.toml` to check everything.

**Status conditions** (`Conditions`, `ConditionHistory`, `ConditionSkipping`, `ConditionRuns`,
`ConditionTimes`). The condition list of a Kamelet is a slice over a shared array (`GoHeap`).
Removal compacts inside that array while it is being read, and the next append may reuse it. The
methods are proved against list functions; the list functions are then tied to the history of
calls, variadic ones and removals included: what is stored for a type is a function of the
effective updates of that type since its last removal.

**Deep copy** (`KameletTypes`, `SchemaDeepCopy`, `KameletDeepCopy`, `KameletValues`,
`DeepCopyLaws`, `RawMessage`). A predicate `Mirror...(a, A, b, B)` says that two values are
equal at every depth, nil and empty told apart, and that all mutable cells reachable from them
lie in the regions A and B. Every copy method is proved to return a mirror image in a fresh
region without modifying anything. `KameletValues` reads a Kamelet as a pure value; deep
equality is equality of these values, and a value outlives all writes on the other side of a
copy.

**Shared informer factory** (`InformerProtocol`, `InformerSafety`, `InformerRuns`,
`InformerSync`, `InformerLiveness`, `InformerFactory`). A transition system with one step for
each access to shared state, for any number of threads and goroutines. Safety holds at every
point of every run; that Shutdown returns, from wherever it is, is proved from stated fairness
conditions, which some run meets. The class `SharedInformerFactory` has the methods with their
loops, and each of them is shown to be a sequence of steps of that system.

**Catalog validator** (`Text`, `SplitMeaning`, `KameletDocuments`, `DocumentPaths`,
`PrintedDocuments`, `Placeholders`, `PlaceholderPattern`, `CatalogRules`, `CatalogTheorems`,
`CatalogErrors`, `ConventionKinds`, `ErrorOrder`, `CatalogValidator`). Each check is a method
that appends to a shared error list and is proved to add exactly the errors its rule owes.
`WellFormed` is an independent description of a good catalog in terms of the documents, and
`Validate` reports nothing if and only if it holds. Which errors are reported otherwise is said
kind by kind, and in which order. The placeholder scan is proved against the pattern itself.

**Bill of materials** (`StringOrder`, `PercentEncoding`, `EncodedText`, `Sbom`, `SbomTheorems`,
`DocumentFields`, `SbomDeterminism`, `SbomScanner`, `ScannerReads`, `SbomInversion`,
`CatalogScan`, `ScanReport`). The Java writer turns dependency lists into a graph, and the
Python scanner turns the graph around. Reading inverts writing for every catalog that can be
written. `ValidatedCatalog` says which catalogs the validator accepts can be. The document is
independent of the reading order exactly when no artifact is both pinned and left to the
runtime.

**Declared headers** (`DeclaredHeaders`, `HeaderFields`, `KameletsCatalog`, `LookupMeaning`).
The ordered first-wins merge of the headers a Kamelet declares, the shadowing of data types by
their side, the fallback to the component, and the facts about names that this needs and the
validator provides.

What an operation computes is stated twice: once by the function that its method is proved
against, and once without that function, by what a reader sees of its arguments and its result,
with the constants spelled out.

Where code and documentation differ the model follows the code, and a lemma says exactly when
the two agree or shows an input on which they do not:

- `SetConditions` returns at the first redundant condition instead of going on with the next one
  (`SkipsAsDocumented`, `SkipsExactly`).
- `CloneWithVersion` does not change the name, although its comment says so (its contract).
- `isExempt` exempts a title word with a character that is not alphanumeric anywhere, not only
  at its end (`ExemptVersusDocumented`).
- `putIfAbsent` makes the description of an artifact depend on the reading order when it is both
  pinned and left to the runtime, although the maps are meant to keep the document stable
  (`OrderDoesNotMatter`, `PinnedAndRuntimeExists`).
- A scan in which the service sends fewer answers than it was asked for can still be clean
  (`CleanVouchesForAnsweredOnly`, `UnansweredIsClean`).
- Kamelets with an empty name are written to the bill of materials, but the scanner attributes
  no artifact to them (`NamelessDependents`).
- The validator accepts catalogs that the writer of the bill of materials cannot read
  (`AcceptedIsWritable`, `AcceptedButUnreadable`).

## Model

| member | source | states |
|---|---|---|
| `Conditions.KameletStatus.GetCondition` | crds/pkg/apis/camel/v1/kamelet_types_support.go:68-76 | Returns a fresh copy of the first condition of the type, and nil exactly when the list has none; the stored list cannot be reached through the result. |
| `Conditions.KameletStatus.RemoveCondition` | crds/pkg/apis/camel/v1/kamelet_types_support.go:131-140 | Compacting inside the shared backing array yields the filter of the old list, keeps the same array, and leaves every cell from the new length on as it was. |
| `Conditions.KameletStatus.Replace` | crds/pkg/apis/camel/v1/kamelet_types_support.go:125-126 | Compaction followed by append loses nothing that was kept, both when the append reuses the freed capacity and when it moves to a new array. |
| `Conditions.KameletStatus.Update` | crds/pkg/apis/camel/v1/kamelet_types_support.go:107-127 | One turn of the loop: the condition with its unset times filled in (ConditionTimes.StampMeaning) is either redundant, and nothing changes, or it replaces its type. |
| `Conditions.KameletStatus.SetConditions` | crds/pkg/apis/camel/v1/kamelet_types_support.go:106-128 | For any list in any array, the resulting list is the specification SetAll of the old list and the stamped arguments; the storage is the old array or a new one. |
| `Conditions.KameletStatus.SetCondition` | crds/pkg/apis/camel/v1/kamelet_types_support.go:79-88 | One update with the two clock readings as its times. |
| `Conditions.KameletStatus.SetErrorCondition` | crds/pkg/apis/camel/v1/kamelet_types_support.go:91-100 | One update with status False and the error text as message. |
| `ConditionHistory.WithoutIsOrderedFilter` | crds/pkg/apis/camel/v1/kamelet_types_support.go:131-140 | Removal keeps exactly the conditions of other types, in their order: the kept places are strictly increasing and are all the places of other types. |
| `ConditionHistory.UpsertReplaces` | crds/pkg/apis/camel/v1/kamelet_types_support.go:115-126 | From any list, duplicates included, an effective update leaves one condition of its type, in the last place, all others in order, and lookups of other types unchanged. |
| `ConditionHistory.SetAllIsPrefix` | crds/pkg/apis/camel/v1/kamelet_types_support.go:106-128 | The variadic call applies exactly the longest prefix in which no condition is redundant at its turn, and nothing after it. |
| `ConditionHistory.ConditionAfterRedundantIsLost` | crds/pkg/apis/camel/v1/kamelet_types_support.go:117-119 | The early return is visible: a new condition after a redundant one is dropped, and kept when the two are swapped. |
| `ConditionHistory.SkipsAsDocumented` | crds/pkg/apis/camel/v1/kamelet_types_support.go:102-128 | For arguments of pairwise distinct types, the call does what its comment says (a redundant one is skipped and the rest handled) if and only if on the old list no redundant argument stands before one that is not. |
| `ConditionHistory.SkipsWhenSettled` | crds/pkg/apis/camel/v1/kamelet_types_support.go:102-128 | For any arguments, repeated types included: it does so when everything from the first redundant one on is redundant at that moment. |
| `ConditionHistory.SkippingMayReturn` | crds/pkg/apis/camel/v1/kamelet_types_support.go:102-128 | With repeated types that is not necessary: skipping can change a type and change it back. |
| `ConditionSkipping.SkipAllIsTail` | crds/pkg/apis/camel/v1/kamelet_types_support.go:102-128 | A call that skips leaves what it does not touch in its order, and then one condition of each type it touches, by last effective update. |
| `ConditionSkipping.SkipsBack` | crds/pkg/apis/camel/v1/kamelet_types_support.go:102-128 | It comes back to its list exactly when those conditions end the list already, in the same order and with the same contents. |
| `ConditionSkipping.SkipsExactly` | crds/pkg/apis/camel/v1/kamelet_types_support.go:102-128 | For any arguments, repeated types included, and any list without duplicates: the call does what its comment says if and only if that holds of the list where it stops and of the arguments from there on. |
| `ConditionHistory.ConditionTellsHistory` | crds/pkg/apis/camel/v1/kamelet_types_support.go:79-128 | After every run of SetCondition and SetErrorCondition calls from empty: absent exactly when never set; otherwise status and reason of the last call, transition time of the first call of the last run of one status, update time and message of the last call that does not repeat its predecessor. |
| `ConditionHistory.SuppressedIsRedundant` | crds/pkg/apis/camel/v1/kamelet_types_support.go:117-119 | A call is suppressed exactly when it repeats status and reason of the previous call for its type. |
| `ConditionHistory.RunIsOrderedByLastUpdate` | crds/pkg/apis/camel/v1/kamelet_types_support.go:79-128 | For runs of single updates: types pairwise distinct, in the order of each type's last call that was not suppressed. |
| `ConditionRuns.RunIsEdited` | crds/pkg/apis/camel/v1/kamelet_types_support.go:106-140 | A run of variadic updates with times of the caller's choice, single updates, error updates and removals leaves what its effective edits make: of each call the applied prefix, and every removal. |
| `ConditionRuns.RunActsIsOrdered` | crds/pkg/apis/camel/v1/kamelet_types_support.go:106-140 | After every such run the types are pairwise distinct, the conditions stand in the order of the last effective update of their type, and the list holds exactly the types that were updated and not removed since. |
| `ConditionRuns.RunActsTells` | crds/pkg/apis/camel/v1/kamelet_types_support.go:106-140 | After every such run the condition of a type is its last effective update since its last removal, with the transition time of the first one of the last run of one status; none if there is none. |
| `ConditionRuns.RunIsRunActs` | crds/pkg/apis/camel/v1/kamelet_types_support.go:79-100 | Runs of single updates are the special case. |
| `ConditionRuns.Perform` | crds/pkg/apis/camel/v1/kamelet_types_support.go:79-140 | Making the calls on the object leaves the list of the run, so what is proved of runs holds of the object. |
| `ConditionTimes.FindMeaning` | crds/pkg/apis/camel/v1/kamelet_types_support.go:68-76 | A lookup gives the first condition of the type, and nothing exactly when there is none. |
| `ConditionTimes.AgainstTheFirst` | crds/pkg/apis/camel/v1/kamelet_types_support.go:115-123 | A condition is redundant exactly when the first one of its type has its status and its reason; an equal status hands on that transition time and nothing else. |
| `ConditionTimes.StampMeaning` | crds/pkg/apis/camel/v1/kamelet_types_support.go:108-113 | Each argument keeps the times it comes with and takes its own readings of the clock for the unset ones; every other field is unchanged. |
| `ConditionTimes.EveryTimeIsSet` | crds/pkg/apis/camel/v1/kamelet_types_support.go:106-140 | After every run of calls, whatever times were left unset, no stored condition has a zero time. |
| `ConditionTimes.UnsetTimesAreStamped` | crds/pkg/apis/camel/v1/kamelet_types_support.go:108-113 | A condition handed to an empty status without times is stored with the two readings of the clock. |
| `GoHeap.Append` | crds/pkg/apis/camel/v1/kamelet_types_support.go:126 | Go's append: writes in place while there is spare capacity and otherwise leaves the old array alone and moves to a larger one. |
| `GoHeap.CopySlice` | crds/pkg/apis/camel/v1/zz_generated.deepcopy.go:50-54 | A nil slice stays nil, an empty one stays empty; otherwise a fresh array with the same elements. |
| `GoHeap.CopyRef` | crds/pkg/apis/camel/v1/zz_generated.deepcopy.go:186-190 | A nil pointer stays nil; otherwise a fresh cell with the same value. |
| `GoHeap.CopyMap` | crds/pkg/apis/camel/v1/zz_generated.deepcopy.go:55-61 | A nil map stays nil; otherwise a fresh map with the same entries. |
| `SchemaDeepCopy.CopyJsonRef` | crds/pkg/apis/camel/v1/zz_generated.deepcopy.go:159-166 | A fresh JSON cell whose raw bytes are fresh too. |
| `SchemaDeepCopy.CopyJsonSlice` | crds/pkg/apis/camel/v1/zz_generated.deepcopy.go:231-237 | Each element of the enumeration gets bytes of its own. |
| `SchemaDeepCopy.CopyProp` | crds/pkg/apis/camel/v1/zz_generated.deepcopy.go:179-248 | All pointers, the enumeration and the descriptors of a schema property are fresh and deeply equal. |
| `SchemaDeepCopy.CopyPropTable` | crds/pkg/apis/camel/v1/zz_generated.deepcopy.go:263-269 | The property map is fresh, has the same keys, and every value is a fresh deep copy. |
| `SchemaDeepCopy.CopySchema` | crds/pkg/apis/camel/v1/zz_generated.deepcopy.go:261-285 | A JSON schema is copied to every depth. |
| `KameletDeepCopy.CopyDataType` | crds/pkg/apis/camel/v1/zz_generated.deepcopy.go:48-67 | Dependencies, headers and schema of a data type are fresh and deeply equal. |
| `KameletDeepCopy.CopyDataTypeTable` | crds/pkg/apis/camel/v1/zz_generated.deepcopy.go:82-88 | The same for a map of data types. |
| `KameletDeepCopy.CopyDataTypes` | crds/pkg/apis/camel/v1/zz_generated.deepcopy.go:80-96 | The same for the data types of one slot. |
| `KameletDeepCopy.CopySlotTable` | crds/pkg/apis/camel/v1/zz_generated.deepcopy.go:438-444 | The same for the map from slots to data types. |
| `KameletDeepCopy.CopyEventTable` | crds/pkg/apis/camel/v1/zz_generated.deepcopy.go:431-437 | The same for the deprecated event types. |
| `KameletDeepCopy.CopySources` | crds/pkg/apis/camel/v1/zz_generated.deepcopy.go:419-425 | A fresh slice of sources, each with interceptors and property names of its own. |
| `KameletDeepCopy.CopyTemplate` | crds/pkg/apis/camel/v1/zz_generated.deepcopy.go:535-542 | A fresh template with fresh bytes. |
| `KameletDeepCopy.CopyBase` | crds/pkg/apis/camel/v1/zz_generated.deepcopy.go:412-450 | The base specification is copied to every depth. |
| `KameletDeepCopy.CopyVersionTable` | crds/pkg/apis/camel/v1/zz_generated.deepcopy.go:392-398 | Every version gets a base specification of its own. |
| `KameletDeepCopy.CopySpec` | crds/pkg/apis/camel/v1/zz_generated.deepcopy.go:389-399 | Base specification and versions are copied to every depth. |
| `KameletDeepCopy.CopyStatus` | crds/pkg/apis/camel/v1/zz_generated.deepcopy.go:463-477 | Conditions and properties are fresh and equal. |
| `KameletDeepCopy.DeepCopy` | crds/pkg/apis/camel/v1/zz_generated.deepcopy.go:298-314 | For every Kamelet: nil gives nil; otherwise all cells reachable from the result lie in a fresh region, the result equals the source at every depth with nil and empty told apart, and the source is not modified. |
| `DeepCopyLaws.MirrorSchemaEuclid` | crds/pkg/apis/camel/v1/zz_generated.deepcopy.go:261-285 | Two schemas that equal a third one at every depth equal each other. |
| `DeepCopyLaws.MirrorBaseEuclid` | crds/pkg/apis/camel/v1/zz_generated.deepcopy.go:412-450 | The same for base specifications. |
| `DeepCopyLaws.MirrorKameletEuclid` | crds/pkg/apis/camel/v1/zz_generated.deepcopy.go:298-314 | Two copies of one Kamelet equal each other at every depth, so deep equality is not an artefact of how a copy was made. |
| `DeepCopyLaws.SchemaMirrors` | crds/pkg/apis/camel/v1/zz_generated.deepcopy.go:261-285 | Deep equality of schemas is equality of the values read from their regions, nil and empty told apart. |
| `DeepCopyLaws.BaseMirrors` | crds/pkg/apis/camel/v1/zz_generated.deepcopy.go:412-450 | The same for base specifications. |
| `DeepCopyLaws.KameletMirrors` | crds/pkg/apis/camel/v1/zz_generated.deepcopy.go:298-314 | The same for Kamelets: deep equality with coverage holds if and only if both regions cover and the two values agree. |
| `DeepCopyLaws.WritesElsewhere` | crds/pkg/apis/camel/v1/zz_generated.deepcopy.go:298-314 | Between any two states: if only cells of a region apart from that of a Kamelet were written, the value of the Kamelet is what it was. |
| `DeepCopyLaws.WritesStayOnOneSide` | crds/pkg/apis/camel/v1/zz_generated.deepcopy.go:298-314 | Two copies lie in fresh regions apart from the source and from each other. After any writes to the source both have the value the source had before; after any writes to one copy the source and the other copy do. |
| `KameletDeepCopy.CloneWithVersion` | crds/pkg/apis/camel/v1/kamelet_types_support.go:216-229 | Fails exactly for a non-empty version that is absent, naming version, namespace and name. Otherwise versions are nil, metadata (the name included) and status equal the source; the base is a separate copy for the empty version and the very struct held for the version otherwise, references included. |
| `RawMessage.MarshalJSON` | crds/pkg/apis/camel/v1/common_types_support.go:26-31 | nil encodes as null in new storage; anything else is handed out as it is, without a copy. |
| `RawMessage.UnmarshalJSON` | crds/pkg/apis/camel/v1/common_types_support.go:34-40 | Fails exactly on a nil pointer. The message then holds the data; marshalling gives the data back if and only if it was not a nil message reading empty data; the old storage is reused exactly when large enough, cells beyond the data untouched. |
| `RawMessage.String` | crds/pkg/apis/camel/v1/common_types_support.go:43-52 | The encoding of the message, empty for a nil pointer. |
| `InformerSafety.InvStep` | crds/pkg/client/camel/informers/externalversions/factory.go:125-201 | Every enabled step of every thread and goroutine keeps the invariant: lock ownership, counter equals unfinished goroutines, no thread past the flag check once the flag is set, one goroutine per started type, started types registered. |
| `InformerSafety.CountStep` | crds/pkg/client/camel/informers/externalversions/factory.go:135-143 | The WaitGroup counter stays equal to unfinished goroutines plus the Add of a launch in progress. |
| `InformerSafety.GoroutineStep` | crds/pkg/client/camel/informers/externalversions/factory.go:134-145 | Each type has at most one goroutine, which runs the registered informer. |
| `InformerSafety.FlagStep` | crds/pkg/client/camel/informers/externalversions/factory.go:129-131 | Once the flag is set no thread is inside the launching part of Start, and none gets there. |
| `InformerSafety.UnfinishedZero` | crds/pkg/client/camel/informers/externalversions/factory.go:153-155 | The counter is zero exactly when every goroutine has finished. |
| `InformerRuns.AlwaysInv` | crds/pkg/client/camel/informers/externalversions/factory.go:125-201 | The invariant holds at every point of every run. |
| `InformerRuns.RegisteredForever` | crds/pkg/client/camel/informers/externalversions/factory.go:181-201 | Registered informers and started types are never replaced or removed. |
| `InformerRuns.OneInformerPerKind` | crds/pkg/client/camel/informers/externalversions/factory.go:181-201 | Any two InformerFor calls for one type, by any threads at any times, return the same informer. |
| `InformerRuns.CreatedAndRunOnce` | crds/pkg/client/camel/informers/externalversions/factory.go:133-146 | On every run newFunc is called at most once per type, each type's informer is launched at most once, the launched one is the registered one, and started types are registered and launched. |
| `InformerRuns.StartStartsAll` | crds/pkg/client/camel/informers/externalversions/factory.go:125-147 | When a Start that passed the flag check is about to unlock, the started types are exactly the registered ones. |
| `InformerRuns.SyncReportsStarted` | crds/pkg/client/camel/informers/externalversions/factory.go:158-177 | WaitForCacheSync reports exactly the types that were started at a moment when the caller held the lock. |
| `InformerSync.SyncReportsAnswers` | crds/pkg/client/camel/informers/externalversions/factory.go:158-177 | On every run, when WaitForCacheSync has returned: its keys are the types started when this call held the lock; each value is the answer of one question of this call, asked after the Unlock that ends the snapshot, while the snapshot held the registered informer of the type; and no answer of the call is missing. Stated over the events of the run. |
| `InformerRuns.AfterFlagStep` | crds/pkg/client/camel/informers/externalversions/factory.go:129-156 | Once the flag is set, the counter drops by one with each finishing goroutine and never changes otherwise, and nothing is launched. |
| `InformerRuns.AfterFlag` | crds/pkg/client/camel/informers/externalversions/factory.go:129-156 | The same over any stretch of a run. |
| `InformerRuns.ShutdownIsFinal` | crds/pkg/client/camel/informers/externalversions/factory.go:149-156 | Once any Shutdown call has returned, every goroutine is done, from then on for ever, and none is launched again. |
| `InformerRuns.PhaseForward` | crds/pkg/client/camel/informers/externalversions/factory.go:140-143 | A goroutine only moves forward through its phases and keeps its stop channel. |
| `InformerRuns.EventuallyAllDone` | crds/pkg/client/camel/informers/externalversions/factory.go:140-156 | If goroutines are scheduled, stop channels are closed and Run returns after that, all goroutines finish. |
| `InformerRuns.WaitingShutdownReturns` | crds/pkg/client/camel/informers/externalversions/factory.go:153-155 | Under the same conditions every Shutdown call that waits returns, provided that a Wait whose counter stays zero is let through. |
| `InformerLiveness.SectionEnds` | crds/pkg/client/camel/informers/externalversions/factory.go:126-137 | A thread in a critical section whose steps are taken leaves it: each step brings it nearer to its Unlock. |
| `InformerLiveness.FreeAgain` | crds/pkg/client/camel/informers/externalversions/factory.go:126-152 | So the lock is free again after any moment. |
| `InformerLiveness.ShutdownReturns` | crds/pkg/client/camel/informers/externalversions/factory.go:149-156 | On a fair run every Shutdown call returns, whether it is in front of the lock, holds it, or waits. |
| `InformerLiveness.FairRunExists` | crds/pkg/client/camel/informers/externalversions/factory.go:125-156 | The conditions can be met together: a run that registers, starts and shuts down one informer meets them all, and its Shutdown returns. |
| `InformerFactory.AfterKeepsInv` | crds/pkg/client/camel/informers/externalversions/factory.go:107-123 | Every sequence of enabled steps from a new factory keeps the invariant, so the methods below work on states the safety results cover. |
| `InformerFactory.SharedInformerFactory.constructor` | crds/pkg/client/camel/informers/externalversions/factory.go:107-123 | A new factory has nothing registered, started or running and is not shutting down. |
| `InformerFactory.SharedInformerFactory.Start` | crds/pkg/client/camel/informers/externalversions/factory.go:125-147 | A sequence of the caller's protocol steps. Nothing changes after the flag; otherwise exactly the registered types that were not started are launched, once each, on the given channel, and counted. |
| `InformerFactory.SharedInformerFactory.BeginShutdown` | crds/pkg/client/camel/informers/externalversions/factory.go:149-155 | The caller's steps up to the wait: the flag is set and nothing else changes. |
| `InformerFactory.SharedInformerFactory.InformerFor` | crds/pkg/client/camel/informers/externalversions/factory.go:181-201 | Returns the registered informer, or registers and returns the new one; nothing else changes. |
| `InformerFactory.SharedInformerFactory.SnapshotStarted` | crds/pkg/client/camel/informers/externalversions/factory.go:158-170 | The snapshot holds exactly the started types, each with its registered informer. |
| `Placeholders.MatchAtSound` | library/kamelets-maven-plugin/src/main/java/org/apache/camel/kamelets/maven/plugin/CatalogValidator.java:54 | What the pattern takes at a place is one of its matches there. |
| `Placeholders.MatchAtComplete` | library/kamelets-maven-plugin/src/main/java/org/apache/camel/kamelets/maven/plugin/CatalogValidator.java:54 | Every match of the pattern at a place is the one taken: no choice of the optional parts gives another. |
| `Placeholders.MatchIsUnique` | library/kamelets-maven-plugin/src/main/java/org/apache/camel/kamelets/maven/plugin/CatalogValidator.java:54 | The pattern has at most one match per start position, so backtracking cannot change the result. |
| `Placeholders.ScanIsLeftmostDisjoint` | library/kamelets-maven-plugin/src/main/java/org/apache/camel/kamelets/maven/plugin/CatalogValidator.java:508-511 | The find loop yields matches in order, disjoint, and every match of the text starts inside one of them. |
| `Placeholders.LeftmostDisjointIsScan` | library/kamelets-maven-plugin/src/main/java/org/apache/camel/kamelets/maven/plugin/CatalogValidator.java:508-511 | Only the list that find yields has that property. |
| `Placeholders.ScanOfPrint` | library/kamelets-maven-plugin/src/main/java/org/apache/camel/kamelets/maven/plugin/CatalogValidator.java:54 | Scanning any printed sequence of brace-free literals and placeholders, whose defaults have no closing brace, gives exactly the names, in order. |
| `PlaceholderPattern.MatchMeaning` | library/kamelets-maven-plugin/src/main/java/org/apache/camel/kamelets/maven/plugin/CatalogValidator.java:54 | A match is exactly a stretch of text that reads: two braces, perhaps a question mark, a name of letters, digits, dashes, full stops and underscores, perhaps a colon and a text without closing braces, two braces. |
| `PlaceholderPattern.WholeTextIsFound` | library/kamelets-maven-plugin/src/main/java/org/apache/camel/kamelets/maven/plugin/CatalogValidator.java:506-511 | A text that is one placeholder is found as a whole, with its name. |
| `PlaceholderPattern.UsualPlaceholders` | library/kamelets-maven-plugin/src/main/java/org/apache/camel/kamelets/maven/plugin/CatalogValidator.java:54 | {{access-key}} and an optional placeholder with a default are found. |
| `Text.SplitWords` | library/kamelets-maven-plugin/src/main/java/org/apache/camel/kamelets/maven/plugin/CatalogValidator.java:313 | The non-empty parts of String.split are exactly the maximal stretches without the separator. |
| `SplitMeaning.SplitJoins` | library/kamelets-maven-plugin/src/main/java/org/apache/camel/kamelets/maven/plugin/GenerateCatalogSbomMojo.java:170 | A text without the character is its only part; otherwise the parts are free of it, the last one is not empty, and joined again they are the text up to the characters at its end. |
| `StringOrder.LeMeaning` | library/kamelets-maven-plugin/src/main/java/org/apache/camel/kamelets/maven/plugin/GenerateCatalogSbomMojo.java:92-93 | A string stands before those it begins, and otherwise the first different character decides. |
| `DocumentPaths.GetMeaning` | library/kamelets-maven-plugin/src/main/java/org/apache/camel/kamelets/maven/plugin/CatalogValidator.java:109-116 | The value of a key is that of its first entry, null when there is none. |
| `DocumentPaths.MetadataPaths` | library/kamelets-maven-plugin/src/main/java/org/apache/camel/kamelets/maven/plugin/CatalogValidator.java:140-150 | Labels and annotations are the printed values at metadata.labels and metadata.annotations, empty for null and wherever the path leaves the maps. |
| `DocumentPaths.SpecPaths` | library/kamelets-maven-plugin/src/main/java/org/apache/camel/kamelets/maven/plugin/CatalogValidator.java:118-174 | Definition and template are the maps at spec.definition and spec.template; the dependencies print the items of the list at spec.dependencies. |
| `DocumentPaths.DefinitionPaths` | library/kamelets-maven-plugin/src/main/java/org/apache/camel/kamelets/maven/plugin/CatalogValidator.java:134-162 | Title, description, required and properties are found under spec.definition; anything but a list has no items. |
| `DocumentPaths.TemplatePaths` | library/kamelets-maven-plugin/src/main/java/org/apache/camel/kamelets/maven/plugin/CatalogValidator.java:489-494 | The beans are the items of the list at spec.template.beans. |
| `PrintedDocuments.ShownExactly` | library/kamelets-maven-plugin/src/main/java/org/apache/camel/kamelets/maven/plugin/CatalogValidator.java:429-434 | For a non-empty word without the signs of the printed form: the printed node contains it exactly when some key, text or scalar at some depth does, or the word is found in null. |
| `CatalogTheorems.TemplateErrorsMeaning` | library/kamelets-maven-plugin/src/main/java/org/apache/camel/kamelets/maven/plugin/CatalogValidator.java:424-437 | No error exactly when some key or scalar of the template, at any depth, holds kamelet:sink for a source and kamelet:source for a sink. |
| `CatalogTheorems.StructureMeaning` | library/kamelets-maven-plugin/src/main/java/org/apache/camel/kamelets/maven/plugin/CatalogValidator.java:228-297 | File name, type, suffix and parameter checks owe nothing exactly for a well-named, well-parameterized Kamelet. |
| `CatalogTheorems.StemCutsSuffix` | library/kamelets-maven-plugin/src/main/java/org/apache/camel/kamelets/maven/plugin/CatalogValidator.java:230 | The suffix is cut off at the end and before a final line terminator, as the anchored pattern does. |
| `CatalogTheorems.StemKeepsOthers` | library/kamelets-maven-plugin/src/main/java/org/apache/camel/kamelets/maven/plugin/CatalogValidator.java:230 | Every other file name is its own stem. |
| `CatalogTheorems.StripMeaning` | library/kamelets-maven-plugin/src/main/java/org/apache/camel/kamelets/maven/plugin/CatalogValidator.java:351-353 | Stripping changes exactly the words with some character that is not alphanumeric. |
| `CatalogTheorems.ExemptMeaning` | library/kamelets-maven-plugin/src/main/java/org/apache/camel/kamelets/maven/plugin/CatalogValidator.java:343-349 | A word is exempt exactly when it is a stop word or has punctuation anywhere. |
| `CatalogTheorems.ExemptVersusDocumented` | library/kamelets-maven-plugin/src/main/java/org/apache/camel/kamelets/maven/plugin/CatalogValidator.java:338-349 | Code and comment agree on a word if and only if it is a stop word, ends in punctuation, or has none. |
| `CatalogTheorems.InnerPunctuationIsExempt` | library/kamelets-maven-plugin/src/main/java/org/apache/camel/kamelets/maven/plugin/CatalogValidator.java:338-349 | The word e-mail is exempt, though not by the comment. |
| `CatalogTheorems.PropertyErrorsMeaning` | library/kamelets-maven-plugin/src/main/java/org/apache/camel/kamelets/maven/plugin/CatalogValidator.java:299-349 | A property owes nothing exactly when it has a type, a description and a title without leading article, every word of which is exempt or capitalized. |
| `CatalogTheorems.RequiredErrorsMeaning` | library/kamelets-maven-plugin/src/main/java/org/apache/camel/kamelets/maven/plugin/CatalogValidator.java:261-295 | The required list owes nothing exactly when it has no repeats and is a subset of the properties. |
| `CatalogTheorems.AllDescriptorErrorsMeaning` | library/kamelets-maven-plugin/src/main/java/org/apache/camel/kamelets/maven/plugin/CatalogValidator.java:378-401 | Descriptors owe nothing exactly when distinct, none deprecated, and passwords carry the credentials descriptor. |
| `CatalogTheorems.MentionsMeaning` | library/kamelets-maven-plugin/src/main/java/org/apache/camel/kamelets/maven/plugin/CatalogValidator.java:506-521 | The names collected by the walk are exactly those of a leftmost disjoint match in some text nested at any depth. |
| `CatalogTheorems.BeanNamesMeaning` | library/kamelets-maven-plugin/src/main/java/org/apache/camel/kamelets/maven/plugin/CatalogValidator.java:489-502 | The bean names are those of the named beans of the template. |
| `CatalogTheorems.UsedParamErrorsMeaning` | library/kamelets-maven-plugin/src/main/java/org/apache/camel/kamelets/maven/plugin/CatalogValidator.java:464-486 | Nothing is owed exactly when the Kamelet is exempt or mentioned and declared names agree. |
| `CatalogTheorems.DuplicateErrorsMeaning` | library/kamelets-maven-plugin/src/main/java/org/apache/camel/kamelets/maven/plugin/CatalogValidator.java:405-422 | Nothing is owed exactly when titles and descriptions are pairwise distinct. |
| `CatalogTheorems.VersionCountsMeaning` | library/kamelets-maven-plugin/src/main/java/org/apache/camel/kamelets/maven/plugin/CatalogValidator.java:451-454 | Each version is counted with exactly the Kamelets that carry it. |
| `CatalogTheorems.VersionErrorsMeaning` | library/kamelets-maven-plugin/src/main/java/org/apache/camel/kamelets/maven/plugin/CatalogValidator.java:450-462 | Nothing is owed exactly when all Kamelets carry one version. |
| `CatalogTheorems.StructuralErrorsMeaning` | library/kamelets-maven-plugin/src/main/java/org/apache/camel/kamelets/maven/plugin/CatalogValidator.java:208-213 | The first phase owes nothing exactly when every Kamelet is structurally well formed. |
| `CatalogTheorems.ConventionErrorsMeaning` | library/kamelets-maven-plugin/src/main/java/org/apache/camel/kamelets/maven/plugin/CatalogValidator.java:214-220 | After a clean first phase, the second owes nothing exactly when the catalog is well formed. |
| `CatalogTheorems.PhaseGate` | library/kamelets-maven-plugin/src/main/java/org/apache/camel/kamelets/maven/plugin/CatalogValidator.java:211-213 | After a clean first phase no later check reports a missing definition. |
| `CatalogErrors.PropertyErrorKinds` | library/kamelets-maven-plugin/src/main/java/org/apache/camel/kamelets/maven/plugin/CatalogValidator.java:299-336 | Kind by kind, with key, owner and word: which errors are reported for a property, said of the document and not of the rules. |
| `CatalogErrors.StructuralErrorKinds` | library/kamelets-maven-plugin/src/main/java/org/apache/camel/kamelets/maven/plugin/CatalogValidator.java:228-297 | The first phase reports exactly the errors that are owed, kind by kind, for the names, the type, the definition, the required list, the title, the description or some property of a Kamelet. |
| `ConventionKinds.OneDescriptorErrorKinds` | library/kamelets-maven-plugin/src/main/java/org/apache/camel/kamelets/maven/plugin/CatalogValidator.java:378-400 | The same for the descriptors of a property. |
| `ConventionKinds.UseErrorKinds` | library/kamelets-maven-plugin/src/main/java/org/apache/camel/kamelets/maven/plugin/CatalogValidator.java:464-486 | A parameter is reported as not declared exactly when some nested text has it as a placeholder and neither a property nor a bean has its name, and as unused exactly the other way round. |
| `ConventionKinds.ConventionErrorKinds` | library/kamelets-maven-plugin/src/main/java/org/apache/camel/kamelets/maven/plugin/CatalogValidator.java:355-486 | The later phase reports exactly what is owed for the conventions of some Kamelet, for its repeating the title or the description of an earlier one, or for the versions, with the number of their carriers. |
| `ErrorOrder.EachInOrder` | library/kamelets-maven-plugin/src/main/java/org/apache/camel/kamelets/maven/plugin/CatalogValidator.java:228-235 | A check reports Kamelet after Kamelet and item after item. |
| `ErrorOrder.RepeatsInOrder` | library/kamelets-maven-plugin/src/main/java/org/apache/camel/kamelets/maven/plugin/CatalogValidator.java:261-266 | One error for each item that repeats an earlier one, in their order. |
| `ErrorOrder.PropertyOrder` | library/kamelets-maven-plugin/src/main/java/org/apache/camel/kamelets/maven/plugin/CatalogValidator.java:307-335 | Of a property first the type, then the title with its words before its articles, then the description. |
| `ErrorOrder.DescriptorOrder` | library/kamelets-maven-plugin/src/main/java/org/apache/camel/kamelets/maven/plugin/CatalogValidator.java:384-400 | Of its descriptors first the missing one, then the deprecated ones, then the repetitions. |
| `ErrorOrder.ParameterOrder` | library/kamelets-maven-plugin/src/main/java/org/apache/camel/kamelets/maven/plugin/CatalogValidator.java:261-295 | Of a definition first the repeated required names, then title, description, type, the properties, and the undefined required names. |
| `ErrorOrder.StructuralOrder` | library/kamelets-maven-plugin/src/main/java/org/apache/camel/kamelets/maven/plugin/CatalogValidator.java:206-213 | File names are checked before types, and types before parameters. |
| `ErrorOrder.ConventionOrder` | library/kamelets-maven-plugin/src/main/java/org/apache/camel/kamelets/maven/plugin/CatalogValidator.java:214-221 | Once the first phase is clean, the later one reports annotations, descriptors, duplicates, parameters, endpoints, dependencies and versions in this order. |
| `CatalogValidator.CollectParams` | library/kamelets-maven-plugin/src/main/java/org/apache/camel/kamelets/maven/plugin/CatalogValidator.java:506-521 | The recursive walk adds exactly the names of the placeholders of all nested texts. |
| `CatalogValidator.CollectBeanNames` | library/kamelets-maven-plugin/src/main/java/org/apache/camel/kamelets/maven/plugin/CatalogValidator.java:489-502 | Collects exactly the names of the template's beans. |
| `CatalogValidator.VerifyFileNames` | library/kamelets-maven-plugin/src/main/java/org/apache/camel/kamelets/maven/plugin/CatalogValidator.java:228-235 | The shared list afterwards is the old one followed by exactly the errors owed for file names, in the order of the walk, repetitions included. |
| `CatalogValidator.VerifyKameletType` | library/kamelets-maven-plugin/src/main/java/org/apache/camel/kamelets/maven/plugin/CatalogValidator.java:237-249 | The shared list afterwards is the old one followed by exactly the errors owed for types and name suffixes, in the order of the walk, repetitions included. |
| `CatalogValidator.VerifyParameters` | library/kamelets-maven-plugin/src/main/java/org/apache/camel/kamelets/maven/plugin/CatalogValidator.java:251-297 | The shared list afterwards is the old one followed by exactly the errors owed for definition, template, required list, title, description and properties, in the order of the walk, repetitions included. |
| `CatalogValidator.VerifyProperty` | library/kamelets-maven-plugin/src/main/java/org/apache/camel/kamelets/maven/plugin/CatalogValidator.java:299-336 | The shared list afterwards is the old one followed by exactly the errors owed for one property, in the order of the walk, repetitions included. |
| `CatalogValidator.VerifyAnnotations` | library/kamelets-maven-plugin/src/main/java/org/apache/camel/kamelets/maven/plugin/CatalogValidator.java:355-370 | The shared list afterwards is the old one followed by exactly the errors owed for annotations, in the order of the walk, repetitions included. |
| `CatalogValidator.VerifyDescriptors` | library/kamelets-maven-plugin/src/main/java/org/apache/camel/kamelets/maven/plugin/CatalogValidator.java:372-403 | The shared list afterwards is the old one followed by exactly the errors owed for descriptors, in the order of the walk, repetitions included. |
| `CatalogValidator.VerifyDuplicates` | library/kamelets-maven-plugin/src/main/java/org/apache/camel/kamelets/maven/plugin/CatalogValidator.java:405-422 | The shared list afterwards is the old one followed by exactly the errors owed for duplicate titles and descriptions, in the order of the walk, repetitions included. |
| `CatalogValidator.VerifyUsedParams` | library/kamelets-maven-plugin/src/main/java/org/apache/camel/kamelets/maven/plugin/CatalogValidator.java:464-486 | The shared list afterwards is the old one followed by exactly the errors owed for used and declared parameters, in the order of the walk, repetitions included. |
| `CatalogValidator.VerifyTemplateConvention` | library/kamelets-maven-plugin/src/main/java/org/apache/camel/kamelets/maven/plugin/CatalogValidator.java:424-437 | The shared list afterwards is the old one followed by exactly the errors owed for template endpoints, in the order of the walk, repetitions included. |
| `CatalogValidator.VerifyDependencies` | library/kamelets-maven-plugin/src/main/java/org/apache/camel/kamelets/maven/plugin/CatalogValidator.java:439-448 | The shared list afterwards is the old one followed by exactly the errors owed for dependency prefixes, in the order of the walk, repetitions included. |
| `CatalogValidator.VerifyCatalogVersion` | library/kamelets-maven-plugin/src/main/java/org/apache/camel/kamelets/maven/plugin/CatalogValidator.java:450-462 | The shared list afterwards is the old one followed by exactly the errors owed for a single catalog version, in the order of the walk, repetitions included. |
| `CatalogValidator.Validate` | library/kamelets-maven-plugin/src/main/java/org/apache/camel/kamelets/maven/plugin/CatalogValidator.java:206-222 | The list is that of the first phase if not empty and otherwise that of the second, check by check in their order; it is empty if and only if the catalog meets the declarative predicate WellFormed. |
| `PercentEncoding.EncAlphabet` | library/kamelets-maven-plugin/src/main/java/org/apache/camel/kamelets/maven/plugin/GenerateCatalogSbomMojo.java:230-232 | The encoded text has only unreserved characters and escapes. |
| `PercentEncoding.EncHasNoDelimiter` | library/kamelets-maven-plugin/src/main/java/org/apache/camel/kamelets/maven/plugin/GenerateCatalogSbomMojo.java:230-232 | It has no slash, at sign or plus. |
| `PercentEncoding.DecodeEnc` | library/kamelets-maven-plugin/src/main/java/org/apache/camel/kamelets/maven/plugin/GenerateCatalogSbomMojo.java:230-232 | Percent-decoding with UTF-8 (section 2.1 of RFC 3986) undoes the encoding of every string: a literal plus and a blank stay apart. |
| `PercentEncoding.PurlIsInjective` | library/kamelets-maven-plugin/src/main/java/org/apache/camel/kamelets/maven/plugin/GenerateCatalogSbomMojo.java:226-228 | Different coordinates have different package URLs. |
| `EncodedText.EncKeeps` | library/kamelets-maven-plugin/src/main/java/org/apache/camel/kamelets/maven/plugin/GenerateCatalogSbomMojo.java:230-232 | Exactly the texts over letters, digits, dash, underscore, full stop and asterisk are their own encoding. |
| `EncodedText.EncOfChar` | library/kamelets-maven-plugin/src/main/java/org/apache/camel/kamelets/maven/plugin/GenerateCatalogSbomMojo.java:230-232 | Any other character becomes one escape, a percent sign and two upper-case hexadecimal digits, for each octet of its UTF-8 form; the octets are described by the ranges and the arithmetic of RFC 3629. |
| `EncodedText.EncConcat` | library/kamelets-maven-plugin/src/main/java/org/apache/camel/kamelets/maven/plugin/GenerateCatalogSbomMojo.java:230-232 | Encoding goes character by character, so the two rows above determine it. |
| `EncodedText.PurlOfArtifact` | library/kamelets-maven-plugin/src/main/java/org/apache/camel/kamelets/maven/plugin/GenerateCatalogSbomMojo.java:226-228 | The package URL of org.apache.activemq:artemis-jakarta-client-all:2.57.0 is the one of the committed document. |
| `Sbom.FirstMention` | library/kamelets-maven-plugin/src/main/java/org/apache/camel/kamelets/maven/plugin/GenerateCatalogSbomMojo.java:106 | An artifact is described by its first mention in reading order. |
| `Sbom.Collect` | library/kamelets-maven-plugin/src/main/java/org/apache/camel/kamelets/maven/plugin/GenerateCatalogSbomMojo.java:95-110 | The two maps after the loops hold the first description of each artifact and the refs of each name, or the first unreadable dependency is reported. |
| `Sbom.EmitKamelets` | library/kamelets-maven-plugin/src/main/java/org/apache/camel/kamelets/maven/plugin/GenerateCatalogSbomMojo.java:115-121 | Components and entries of the Kamelets in the order of their names, with sorted refs. |
| `Sbom.EmitArtifacts` | library/kamelets-maven-plugin/src/main/java/org/apache/camel/kamelets/maven/plugin/GenerateCatalogSbomMojo.java:122-128 | Components and empty entries of the artifacts in the order of their refs. |
| `Sbom.Execute` | library/kamelets-maven-plugin/src/main/java/org/apache/camel/kamelets/maven/plugin/GenerateCatalogSbomMojo.java:82-138 | A document is written exactly when every mvn dependency has group, artifact and version; it is the one that Document describes; otherwise the first unreadable dependency is named. |
| `SbomTheorems.ReadDescribes` | library/kamelets-maven-plugin/src/main/java/org/apache/camel/kamelets/maven/plugin/GenerateCatalogSbomMojo.java:169-204 | What a dependency reads as: a purl of its own coordinate, a group without colon, the runtime label exactly for camel dependencies. |
| `SbomTheorems.MavenReads` | library/kamelets-maven-plugin/src/main/java/org/apache/camel/kamelets/maven/plugin/GenerateCatalogSbomMojo.java:169-175 | A printed coordinate of three parts without colons, the version not empty, reads as that artifact. |
| `SbomTheorems.CamelReads` | library/kamelets-maven-plugin/src/main/java/org/apache/camel/kamelets/maven/plugin/GenerateCatalogSbomMojo.java:182-184 | A camel dependency reads as the artifact of its component. |
| `SbomTheorems.RefsMeaning` | library/kamelets-maven-plugin/src/main/java/org/apache/camel/kamelets/maven/plugin/GenerateCatalogSbomMojo.java:96-107 | A name has a ref exactly when some Kamelet of that name has a dependency that stands for the artifact. |
| `SbomTheorems.RefsDiffer` | library/kamelets-maven-plugin/src/main/java/org/apache/camel/kamelets/maven/plugin/GenerateCatalogSbomMojo.java:112-128 | The refs of the catalog and of all components are pairwise distinct, and there is one entry for each. |
| `SbomTheorems.EdgesAreLayered` | library/kamelets-maven-plugin/src/main/java/org/apache/camel/kamelets/maven/plugin/GenerateCatalogSbomMojo.java:116-128 | Every edge ends at a component and leads from the catalog to a Kamelet or from a Kamelet to an artifact. |
| `SbomTheorems.EveryComponentHangs` | library/kamelets-maven-plugin/src/main/java/org/apache/camel/kamelets/maven/plugin/GenerateCatalogSbomMojo.java:115-128 | Every component is the end of some edge. |
| `SbomTheorems.EdgesAreDependencies` | library/kamelets-maven-plugin/src/main/java/org/apache/camel/kamelets/maven/plugin/GenerateCatalogSbomMojo.java:96-121 | A Kamelet has an edge to an artifact exactly when some Kamelet of its name has a dependency that stands for the artifact. |
| `SbomTheorems.GraphIsWellFormed` | library/kamelets-maven-plugin/src/main/java/org/apache/camel/kamelets/maven/plugin/GenerateCatalogSbomMojo.java:92-128 | Distinct refs, one entry each, layered edges and no loose component, for every list of Kamelets. |
| `DocumentFields.FieldsOfDocument` | library/kamelets-maven-plugin/src/main/java/org/apache/camel/kamelets/maven/plugin/GenerateCatalogSbomMojo.java:156-217 | For every catalog, with every constant spelled out: the fields of the root and of each Kamelet, which have the version of the project and no package URL, and of each artifact, which is referred to by its package URL and marked when the runtime decides its version. |
| `DocumentFields.ReadMeaning` | library/kamelets-maven-plugin/src/main/java/org/apache/camel/kamelets/maven/plugin/GenerateCatalogSbomMojo.java:99-103 | A coordinate of three parts and a component of the runtime read as these components, field by field. |
| `DocumentFields.OtherReads` | library/kamelets-maven-plugin/src/main/java/org/apache/camel/kamelets/maven/plugin/GenerateCatalogSbomMojo.java:97-103 | Ignored are exactly the dependencies with neither prefix, unreadable exactly the mvn ones with fewer than three parts. |
| `DocumentFields.DocumentOfOne` | library/kamelets-maven-plugin/src/main/java/org/apache/camel/kamelets/maven/plugin/GenerateCatalogSbomMojo.java:112-138 | The whole document of a catalog of one Kamelet with one artifact. |
| `SbomDeterminism.OrderDoesNotMatter` | library/kamelets-maven-plugin/src/main/java/org/apache/camel/kamelets/maven/plugin/GenerateCatalogSbomMojo.java:90-128 | The document is the same for every reordering of Kamelets and of their dependencies if and only if no artifact comes from both an mvn and a camel dependency; whether it can be written never depends on the order. |
| `SbomDeterminism.SameDocument` | library/kamelets-maven-plugin/src/main/java/org/apache/camel/kamelets/maven/plugin/GenerateCatalogSbomMojo.java:104-108 | Without such an artifact any reordering gives the same document. |
| `SbomDeterminism.OrdersThatDiffer` | library/kamelets-maven-plugin/src/main/java/org/apache/camel/kamelets/maven/plugin/GenerateCatalogSbomMojo.java:106 | With such an artifact there are two reorderings with different documents. |
| `SbomDeterminism.PinnedAndRuntimeExists` | library/kamelets-maven-plugin/src/main/java/org/apache/camel/kamelets/maven/plugin/GenerateCatalogSbomMojo.java:99-106 | One Kamelet with mvn:org.apache.camel:camel-x:4 and camel:x at Camel 4 is such a case. |
| `SbomScanner.ReverseGraph` | script/security/scan_catalog_dependencies.py:73-79 | The map lists, for each ref, the attributed names of the entries that reach it, one for every edge, in order; an entry without a ref counts for nobody. |
| `SbomScanner.NothingMissing` | script/security/scan_catalog_dependencies.py:66-92 | No key is missed exactly when every component has a ref and a name, and every artifact a group and a version. |
| `SbomScanner.ReadComponents` | script/security/scan_catalog_dependencies.py:61-93 | Reading stops at the first missing key: first the refs of all components and the names of Kamelets, then group, name and version of the artifacts in order. Otherwise Kamelets are passed over and every other component is read with its reversed edges. |
| `SbomScanner.ReadWhenComplete` | script/security/scan_catalog_dependencies.py:61-93 | A document is read exactly when no key that is needed is missing. |
| `ScannerReads.NamesPass` | script/security/scan_catalog_dependencies.py:66-70 | The first pass reports the first component that lacks something: the ref, or the name of a Kamelet. |
| `ScannerReads.ArtifactsPass` | script/security/scan_catalog_dependencies.py:82-89 | The second pass reports the first artifact that lacks something, group before name before version. |
| `ScannerReads.PassesInOrder` | script/security/scan_catalog_dependencies.py:61-93 | The first pass comes first. |
| `ScannerReads.LastPropertyCounts` | script/security/scan_catalog_dependencies.py:86 | The last property of a name decides. |
| `ScannerReads.LastNameCounts` | script/security/scan_catalog_dependencies.py:66-70 | The last Kamelet of a ref gives its name. |
| `ScannerReads.DeclarersMeaning` | script/security/scan_catalog_dependencies.py:73-79 | An entry of a named Kamelet counts once for every edge to the artifact, any other entry not at all, and the entries follow each other. |
| `ScannerReads.ScanMeaning` | script/security/scan_catalog_dependencies.py:87-92 | The fields of a scanned artifact: group and name with a colon, version, the sorted names with commas, and the mark of the runtime. |
| `SbomInversion.KameletNamesMeaning` | script/security/scan_catalog_dependencies.py:66-70 | A ref has a name exactly when it is a Kamelet ref of some component, whose name it is. |
| `SbomInversion.DeclarersAreDependents` | script/security/scan_catalog_dependencies.py:73-91 | For a written document, the sorted attribution of an artifact is the sorted duplicate-free list of the named Kamelets that depend on it. |
| `SbomInversion.ReadingInvertsWriting` | script/security/scan_catalog_dependencies.py:61-93 | For every catalog: reading the written document gives each artifact once, in ref order, no Kamelet among them, with the coordinate and version of its first mention, exactly its dependents, and the runtime mark exactly when that mention is a camel dependency. |
| `SbomInversion.ScannedOnce` | script/security/scan_catalog_dependencies.py:87-88 | Two scanned entries with equal coordinate and version are one artifact. |
| `SbomInversion.AttributionIsReadable` | script/security/scan_catalog_dependencies.py:89 | When no name holds a comma, the joined text determines the set of dependents. |
| `SbomInversion.CommaIsAmbiguous` | script/security/scan_catalog_dependencies.py:89 | With a comma in a name it may not: the Kamelet a,b and the Kamelets a and b give the same text. |
| `SbomInversion.NamelessDependents` | script/security/scan_catalog_dependencies.py:75-77 | The attribution names every dependent if and only if no dependent has an empty name; it always names all the others. |
| `SbomInversion.NamelessIsPassedOver` | script/security/scan_catalog_dependencies.py:75-77 | A Kamelet file without a name: its artifact is in the document and is attributed to nobody. |
| `CatalogScan.ResolveRuntimeVersions` | script/security/scan_catalog_dependencies.py:106-114 | Runtime artifacts, and only those, are pointed at the release; without a release nothing changes, and that is a failure exactly when there is a runtime artifact. |
| `CatalogScan.Match` | script/security/scan_catalog_dependencies.py:125-140 | The findings of the zip of artifacts and answers. |
| `CatalogScan.FindingsMeaning` | script/security/scan_catalog_dependencies.py:126-140 | A finding is reported exactly when it is an advisory in the answer at the place of its artifact. |
| `CatalogScan.PartitionKeepsAll` | script/security/scan_catalog_dependencies.py:174-175 | The two tables of the report hold every finding once, on its own side. |
| `CatalogScan.Run` | script/security/scan_catalog_dependencies.py:202-226 | The tables hold the findings of the matched answers, each on its side. The exit code over every service: failure exactly when there is nothing to ask, no release for a runtime artifact or no answer; found exactly when a table is not empty; clean exactly when all matched answers are empty. |
| `CatalogScan.CleanScan` | script/security/scan_catalog_dependencies.py:106-125 | What a clean exit code means; and every runtime artifact is asked about at the release, every other one at its own version. |
| `CatalogScan.CleanVouchesForAnsweredOnly` | script/security/scan_catalog_dependencies.py:126 | After a clean scan every artifact has an empty answer of its own if and only if the service sent at least as many answers as there are artifacts. |
| `CatalogScan.UnansweredIsClean` | script/security/scan_catalog_dependencies.py:126 | A service that answers nothing for the one artifact leaves the scan clean. |
| `ScanReport.AnswerMeaning` | script/security/scan_catalog_dependencies.py:117-124 | The service is asked once, one query for each artifact in their order, a runtime artifact at the release and every other one at its own version. |
| `ScanReport.FoundMeaning` | script/security/scan_catalog_dependencies.py:126-141 | Every advisory is reported once, with its artifact, in the order of the artifacts and of their answers. |
| `ScanReport.TableInOrder` | script/security/scan_catalog_dependencies.py:174-175 | A table holds the findings of its side in their order. |
| `ScanReport.AskableMeaning` | script/security/scan_catalog_dependencies.py:209-218 | Asked is when there are artifacts, and a release or no artifact of the runtime. |
| `ValidatedCatalog.AcceptedIsWritable` | library/kamelets-maven-plugin/src/main/java/org/apache/camel/kamelets/maven/plugin/GenerateCatalogSbomMojo.java:97-110 | A catalog the validator accepts is written if and only if every mvn dependency has three parts; every other dependency is an artifact or a repository reference. |
| `ValidatedCatalog.AcceptedButUnreadable` | library/kamelets-maven-plugin/src/main/java/org/apache/camel/kamelets/maven/plugin/GenerateCatalogSbomMojo.java:170-173 | A catalog of one action Kamelet with the dependency mvn:a is well formed for the validator and cannot be written. |
| `ValidatedCatalog.AcceptedIsFullyAttributed` | script/security/scan_catalog_dependencies.py:75-77 | In an accepted catalog every Kamelet has a name, so every dependent of an artifact is attributed. |
| `DeclaredHeaders.CandidatesMeaning` | library/camel-kamelets-catalog/src/main/java/org/apache/camel/kamelets/catalog/KameletsCatalog.java:287-330 | A header is looked at exactly when some side declares it: in its own block if that has entries, and in a data type otherwise. |
| `DeclaredHeaders.MergedKeepsFirsts` | library/camel-kamelets-catalog/src/main/java/org/apache/camel/kamelets/catalog/KameletsCatalog.java:299-327 | The merge is the first entry of each name with that entry's fields, in order of first occurrence. |
| `DeclaredHeaders.MergedIsTheOnlyOne` | library/camel-kamelets-catalog/src/main/java/org/apache/camel/kamelets/catalog/KameletsCatalog.java:299-327 | Nothing else has that property. |
| `DeclaredHeaders.DeclaredOnce` | library/camel-kamelets-catalog/src/main/java/org/apache/camel/kamelets/catalog/KameletsCatalog.java:280-332 | Names are pairwise distinct, they are exactly the declared ones, and the result is empty exactly when no side declares any. |
| `DeclaredHeaders.GetDeclaredHeaders` | library/camel-kamelets-catalog/src/main/java/org/apache/camel/kamelets/catalog/KameletsCatalog.java:280-332 | The nested loops over sides, data types and entries compute that merge; a null anywhere is passed over. |
| `HeaderFields.DeclaredFields` | library/camel-kamelets-catalog/src/main/java/org/apache/camel/kamelets/catalog/KameletsCatalog.java:338-349 | Each declared header shows the entry at the first place of its name, field by field: the title as display name, the declared type as both types, required exactly when declared true, no label; a null header shows nothing. |
| `HeaderFields.EntriesInOrder` | library/camel-kamelets-catalog/src/main/java/org/apache/camel/kamelets/catalog/KameletsCatalog.java:287-306 | The entries of the sides follow each other, and the block of a side hides its data types. |
| `HeaderFields.EntriesOfTypes` | library/camel-kamelets-catalog/src/main/java/org/apache/camel/kamelets/catalog/KameletsCatalog.java:311-328 | A side without entries of its own gives those of its data types in their order. |
| `KameletsCatalog.KeyOfResource` | library/camel-kamelets-catalog/src/main/java/org/apache/camel/kamelets/catalog/KameletsCatalog.java:94-100 | A resource is stored under its file name without the suffix, even when the name holds the suffix itself. |
| `KameletsCatalog.KeyIsName` | library/camel-kamelets-catalog/src/main/java/org/apache/camel/kamelets/catalog/KameletsCatalog.java:94-100 | What the validator demands of names makes the key of a Kamelet its own name. |
| `KameletsCatalog.EnumValue` | library/camel-kamelets-catalog/src/main/java/org/apache/camel/kamelets/catalog/KameletsCatalog.java:355-360 | The loop returns the first scheme of the prefix. |
| `KameletsCatalog.SchemeOfMeaning` | library/camel-kamelets-catalog/src/main/java/org/apache/camel/kamelets/catalog/KameletsCatalog.java:355-360 | None exactly when no entry has the prefix; otherwise that of the first entry which has. |
| `KameletsCatalog.SuitingMeaning` | library/camel-kamelets-catalog/src/main/java/org/apache/camel/kamelets/catalog/KameletsCatalog.java:265-269 | Exactly the headers without a label or with the wanted one are kept, their places increasing. |
| `KameletsCatalog.ComponentHeaders` | library/camel-kamelets-catalog/src/main/java/org/apache/camel/kamelets/catalog/KameletsCatalog.java:265-269 | Keeps, in order, the component's headers without a label or with the label wanted. |
| `KameletsCatalog.PrefixIsUnique` | library/camel-kamelets-catalog/src/main/java/org/apache/camel/kamelets/catalog/KameletsCatalog.java:258-259 | A name splits at its last dash in one way only. |
| `KameletsCatalog.GetKameletSupportedHeaders` | library/camel-kamelets-catalog/src/main/java/org/apache/camel/kamelets/catalog/KameletsCatalog.java:245-274 | Nothing for an unknown name; the declared headers if there are any; otherwise the first missing thing fails the call, and with nothing missing the result is the filtered headers of the component for the prefix before the last dash. |
| `KameletsCatalog.LookupIsTotalAndExact` | library/camel-kamelets-catalog/src/main/java/org/apache/camel/kamelets/catalog/KameletsCatalog.java:256-260 | For a Kamelet the validator accepts nothing is missing, the name is prefix, dash and type in exactly one way, and producers are wanted exactly for sinks. |
| `LookupMeaning.KeyMeaning` | library/camel-kamelets-catalog/src/main/java/org/apache/camel/kamelets/catalog/KameletsCatalog.java:94-100 | The key of any path: it is cut before the last suffix, unless it starts with that, and loses nine characters in front; none when fewer than nine are left. |
| `LookupMeaning.SideMeaning` | library/camel-kamelets-catalog/src/main/java/org/apache/camel/kamelets/catalog/KameletsCatalog.java:362-371 | A sink, whatever the case of its label, wants the headers of producers, every other type those of consumers. |
| `LookupMeaning.SuitsMeaning` | library/camel-kamelets-catalog/src/main/java/org/apache/camel/kamelets/catalog/KameletsCatalog.java:266 | A header without a label, with an empty one, or with the wanted one in any case suits. |
| `LookupMeaning.MissingMeaning` | library/camel-kamelets-catalog/src/main/java/org/apache/camel/kamelets/catalog/KameletsCatalog.java:245-262 | Each failure is met exactly when nothing before it is missing. |

## Left out

- Reading and writing of YAML, JSON and files, directory and class path scanning, HTTP, logging and Maven plumbing: the model starts from parsed documents and takes answers of services, the clock and the new informer as parameters.
- CatalogValidator.Validate: states the reported errors, their order and repetitions, not their wording; an error is a value of a datatype with the arguments of the message.
- Upper and lower case of the platform are arbitrary functions given as parameters.
- Sbom.Execute: strings are sequences of Unicode scalar values and are ordered by them here and in the validator; the UTF-16 order of Java differs for characters beyond the basic plane, and unpaired surrogates are not strings here. The constant format fields of the document and the count that is only logged are left out.
- SbomScanner.ReadComponents: a key is there with a string, or missing; values of other types, null among them, are not modelled.
- CatalogScan.Run: severity, aliases and summaries of advisories and the text of the report are left out.
- Conditions.KameletStatus.SetConditions: its arguments are values, so a call that passes the stored slice itself as the variadic argument is not modelled; that the pointer from GetCondition is a copy is.
- KameletDeepCopy.DeepCopy: the functions that fill a given struct are methods that return the struct; object and type metadata are values whose copy is taken as correct; times are integers; fields of large structs are grouped, and a Go map is a cell that holds a map value. `KameletList` is left out.
- GoHeap.Append: slices start at the beginning of their array, which all slices of the modelled code do.
- InformerFactory.SharedInformerFactory.Start: the methods of the class are shown as steps of one thread with no other step in between; the interleavings are those of the transition system. Resync periods, transforms and options are left out.
- InformerLiveness.ShutdownReturns: rests on the stated fairness conditions, which are not properties of the code.
- KameletsCatalog.GetKameletSupportedHeaders: the table of schemes and the component catalog are arbitrary parameters.
- `GetConditions`, the generated `With...` builders, clients, listers and fakes, `ValidateKameletsMojo`, the navigation generator, and the getters of `KameletsCatalog` that only filter or forward: they would add easy members only.
