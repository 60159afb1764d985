# Proofs about the backend's generators, guards, pools and data scripts

A Dafny model of five parts of the backend, with the properties they are there for.

1. **The API description generator.** JSON Schema (draft-07) is translated to the Schema Object of OpenAPI 3.0.3,
   and references between definitions are resolved to named components. `JsonSchema` and `OpenApi` say what a schema
   of either kind accepts; `SchemaRewrite` is the translation of one object, `Registry` the resolver with its state.
   `ObjectRewrite` says what one translated object is, field by field. The results: the translation keeps meaning
   for every graph of definitions in a stated fragment, cyclic or not, over every run of conversions and additions;
   every component reference resolves; no store overwrites another; the output is OpenAPI 3.0; conversion
   terminates. `ComponentRegistry.dfy` has the same code as a class with mutable maps, proved equal to the
   functions.
2. **The admin limiter and the guard before it** (`RateLimiter`, `AdminGuard`): lazily filtered and pruned lists
   refine a limiter that keeps everything; windows are safe over whole runs; refused traffic is invisible.
3. **Three worker pools** (`BenchmarkPool`, `WriterPool`, `ImageRun`, and `ImageAttempts` for one picture). A step
   is what one worker does between two awaits; any interleaving is a run, and for the image run the program may be
   started again at any moment.
4. **The text patcher** (`TextPatch`, `JsonPrint`, `PrintedDocument`): replacing an array's elements by the shape of
   lines, so that the rest of the file stays as written.
5. **Data scripts** (`IngredientTags`, `Startup`, `ResetAccounts`, `UsageReport`, `Percentile`): container starts
   that may be cut between any two writes and what they leave (`StartupOutcome`), the account reset, and the sums of
   the usage report.

How to read the schema results. A source schema is read through a `Meaning` for its references. `BoundedMeaning`
constructs one for every graph without source `oneOf`: a value meets a definition if it passes every bounded
unrolling; it is a solution of the definitions' equations, and the greatest one. `OutputUnrolling` reads the stored
components in the same way. `nullable: true` means "or null". *Sound* means that the output accepts whatever the
source accepts; *exact* means that both accept the same; a `Side` says which of the two halves is meant. The
fragments are the predicates `InFragment`, `ExactEntries` (module `SchemaMeaning`) and `SchemaOk`, `DefinitionsOk`
(module `RegistryMeaning`): no tuple and no source `oneOf`; a type list names pairwise disjoint types; `anyOf` or
`allOf` stands alone among the assertions of its object; no variant without constraints beside null; for exactness,
bare null only as a variant of `anyOf`, and `allOf` parts with disjoint properties.

## Where the code differs from what it promises

- `stripDescriptions` removes members named `description` at every depth, so also a *property* called `description`:
  two definitions of one short name that differ only in that property share a component. Such objects mean the same
  exactly when the forgotten property schemas do (`Fingerprint.DescriptionPropertyForgotten`).
  `RegistryLimits.TwinsLoseMeaning` is a graph of two definitions whose run loses a value in this way. Components
  can mean what the definitions converted to them mean exactly when the twins among these agree
  (`RunMeaning.SharingKeepsMeaningExactlyWhen`); they do if only annotations tell them apart, whatever their
  properties are called (`RunMeaning.TwinsAgreeWhen`).
- An anonymous recursive definition does not reserve its name before its body is converted, unlike a named one. Its
  store replaces another component exactly when that name is written meanwhile
  (`RegistryTrace.StoreReplacesExactlyWhen`), as with a definition itself named `Anonymous1`
  (`RegistryLimits.AnonymousReplacesNamed`). For which names of definitions that can happen at all is known exactly:
  with `n` anonymous ones, a short name `Anonymous<k>`, `1 <= k <= n`, or, for `n >= 2`, two called `Anonymous`
  (`RegistryClash.ReplacesExactlyWhen`).
- A schema that accepts anything, beside null, is translated to `{nullable: true}`, which an enclosing union takes
  for a bare null and drops (`RegistryLimits.VagueUnionRejectsNumbers`). Which schemas are translated to a bare null
  is read off the source, also behind references, under `oneOf` and with a default (`NullLooks.ConvertLooks`), and
  so is the exact condition under which a union loses values (`RegistryLimits.UnionKeptExactlyWhen`,
  `UnionRuns.UnionKeptAfterRun`).
- `type: "null"` remains in the output when the object also has a nullable union, because the early return precedes
  the step that removes it (`RegistryLimits.NullTypeLeft`; exactly then by `OutputShape.FinishClean`).
- An `allOf` of objects stays unmerged beside a union with one variant and null, for the same reason
  (`OutputShape.AllOfLeftExactly`), and beside a list of types, which copies it into each variant
  (`ObjectRewrite.ConvertedExactly`).
- The retry hint counts from the oldest live stamp. After a lowered limit it can be too short
  (`RateLimiter.LoweredLimitHint`); `RateLimiter.RetryHintExact` says when it is the exact wait.
- `--limit` and `--concurrency` are checked to be positive before they are rounded down. A limit below one becomes
  zero, which is no limit (`WriterPool.LimitKeptExactlyWhen`); a concurrency below one leaves no worker, and the run
  ends with every id still in the queue (`WriterPool.AllDoneExactlyWhen`).
- `Math.max(1, Number(text))` is no number when the text is none, and an array of that length is empty: with such a
  `--concurrency` the benchmark and the picture run start no worker and end with nothing done
  (`BenchmarkPool.RecordsAllExactlyWhen`, `ImageRun.AttemptsAllExactlyWhen`), and such a `--max-cost-usd` never
  stops a run (`BenchmarkPool.StopsExactlyWhen`).
- An id named twice in `--ids` is made twice in one run, without `--force`
  (`ImageRun.ReplacedExactlyWhenNamedTwice`).
- Patching an empty array written on two adjoining lines adds an empty line; appending to it is refused, because the
  comma lands behind the opening bracket (`TextPatch.KeepAllIsIdentity`, `TextPatch.AppendToEmpty`).
- The end of "the array" is the last line of the file that begins like one. What is appended to a list of a printed
  document lands in that list exactly when no later top-level member is a list with an item, and else, without an
  error, in the last such member (`PrintedDocument.AppendLandsExactlyWhen`, `PrintedDocument.AppendLandsLast`).
- A bootstrap cut anywhere after its first ingredient is never completed by a later start: starts without a rebuild
  add ingredients or recipes exactly when they begin with the empty database (`Startup.FilledExactlyFromEmpty`).
- The report charges a whole turn to the household of its first row (`UsageReport.TurnOfTwoHouseholds`). Every
  household is charged with its own rows, whatever they cost, exactly when no turn has rows of two households
  (`UsageReport.ChargesRightExactlyWhen`).

## Model

| member | source | states |
|---|---|---|
| SchemaMeaning.NodeAgrees | scripts/openapi/json-schema-to-openapi.ts:57-184 | if the subschemas agree with their outputs, the translated object agrees with the source object: sound on the fragment, exact on the exact one, with the null marking |
| SchemaMeaning.SplitSound | scripts/openapi/json-schema-to-openapi.ts:108-121 | replacing a type list by one type or by a `oneOf` loses no accepted value when the types are pairwise disjoint |
| SchemaMeaning.SplitExact | scripts/openapi/json-schema-to-openapi.ts:108-121 | and gains none, apart from null where the list has it |
| SchemaMeaning.AnyOfMeaning | scripts/openapi/json-schema-to-openapi.ts:123-136 | what an `anyOf` accepts after its null variants are removed: null if there was one, or what a remaining variant accepts |
| SchemaMeaning.AllOfSound | scripts/openapi/json-schema-to-openapi.ts:149-168 | merging the parts of an `allOf` into one object loses no accepted value |
| SchemaMeaning.AllOfExact | scripts/openapi/json-schema-to-openapi.ts:149-168 | and gains none when the parts' property names are disjoint |
| SchemaMeaning.FinishPlainSound | scripts/openapi/json-schema-to-openapi.ts:108-183 | the rewrites of an object without `anyOf` and `allOf` lose no accepted value |
| SchemaMeaning.FinishPlainExact | scripts/openapi/json-schema-to-openapi.ts:108-183 | and gain none on the exact fragment, including null in `enum` and the type inferred from it |
| OutputShape.FinishClean | scripts/openapi/json-schema-to-openapi.ts:123-144 | the output has no type list, and `type: "null"` exactly when the early return copies it from an object with a nullable union |
| OutputShape.AllOfLeftExactly | scripts/openapi/json-schema-to-openapi.ts:123-168 | an `allOf` of two or more objects with properties is left in a returned object exactly by the early return, beside a union with one variant and null |
| ObjectRewrite.ConvertedExactly | scripts/openapi/json-schema-to-openapi.ts:57-184 | every converted object, from any state: each key is the one its last entry says, over the results of its subschemas, then a list of types is split, null variants and values removed, a lone variant spread under the object's own keys, an `allOf` of objects merged and an enum typed, with exact conditions for each |
| ObjectRewrite.AllOfBecomesOne | scripts/openapi/json-schema-to-openapi.ts:149-168 | an `allOf` of two or more objects, with no union and no type list beside it, is converted to one object with exactly the parts' properties, the last part's where they repeat, and what any part requires, or else what stood beside it |
| ComponentRegistryClass.Rewrite | scripts/openapi/json-schema-to-openapi.ts:108-183 | the edits of the local object, with the loop over `anyOf` and `oneOf` and its early return, give the object that `ObjectRewrite` describes field by field |
| ComponentRegistryClass.Flatten | scripts/openapi/json-schema-to-openapi.ts:155-167 | the merging loop gives one object with exactly the parts' properties, each as the last part has it, and what they require |
| ComponentNames.FreeName | scripts/openapi/generate-openapi.ts:383-389 | the search for a free name ends, on a name that is not taken and is the wanted one whenever that is free |
| ComponentNames.NumberedDistinct | scripts/openapi/generate-openapi.ts:384-388 | different numbers give different names |
| ComponentNames.FreeNameNotAnonLike | scripts/openapi/generate-openapi.ts:383-389 | numbering a short name never yields one of the form `Anonymous<digits>` |
| ComponentNames.ShortNameExactly | scripts/openapi/json-schema-to-openapi.ts:33-36 | a definition's short name is the identifier that it is, or that stands behind its last dot |
| ComponentNames.AnyJsonExactly | scripts/openapi/generate-openapi.ts:406-410 | which definitions are taken for any JSON: those called, or ending behind a dot in, one of six names |
| Fingerprint.StripMeaning | scripts/openapi/generate-openapi.ts:455-463 | removing descriptions keeps what a schema accepts, where `description` is only an annotation |
| FingerprintEquality.SchemaStripped | scripts/openapi/generate-openapi.ts:455-463 | two bodies have one fingerprint if and only if they are equal but for annotations, properties and members of values called `description`, at any depth |
| FingerprintEquality.AnnotationsOnly | scripts/openapi/generate-openapi.ts:455-463 | bodies that differ in such annotations alone are among them |
| Fingerprint.AssertionsMeaning | scripts/openapi/generate-openapi.ts:455-463 | a schema without its annotations, at any depth, accepts the same values |
| Fingerprint.SameFingerprintSameMeaning | scripts/openapi/generate-openapi.ts:422-427 | bodies that assert the same accept the same values; bodies with one fingerprint in which `description` is only an annotation do |
| Fingerprint.DescriptionPropertyForgotten | scripts/openapi/generate-openapi.ts:455-463 | two objects that differ in a property called `description` have equal fingerprints, and accept the same values exactly when the two property schemas do |
| Fingerprint.DescriptionTypesForgotten | scripts/openapi/generate-openapi.ts:455-463 | a string and a number under that name: equal fingerprints, different values accepted |
| RegistryLimits.TwinsLoseMeaning | scripts/openapi/generate-openapi.ts:420-443 | a graph of two such definitions: both are converted to the first one's component, which rejects a value the second one accepts |
| Registry.ResolveF | scripts/openapi/generate-openapi.ts:401-452 | resolving ends on every graph, leaves `inlining` as it was and only adds to `converted` |
| RegistryRuns.EveryGraphConverts | scripts/openapi/generate-openapi.ts:397-452 | the finite set of names behind the termination measure exists for every definition graph and every list of roots |
| RegistrySafety.ConvertKeeps | scripts/openapi/generate-openapi.ts:397-399 | every conversion keeps the registry's invariant, and its result refers to reserved components only |
| RegistrySafety.PlanKeeps | scripts/openapi/generate-openapi.ts:401-450 | each way of answering a reference keeps the invariant up to the conversion of the body |
| RegistrySafety.StoreFresh | scripts/openapi/generate-openapi.ts:434-443 | a finished body is stored over its own placeholder or over nothing |
| RegistryRuns.RunClosed | scripts/openapi/generate-openapi.ts:391-452 | over any run of `convert` and `add`: every reference in every result and every stored component names a stored component, and what was stored before the run is unchanged after it |
| RegistryTrace.RunTraced | scripts/openapi/generate-openapi.ts:391-452 | replaying all stores of a run, in order, gives its components; no store is made to a name stored before the run |
| RegistryTrace.RunStoresOnce | scripts/openapi/generate-openapi.ts:391-452 | unless there are both an anonymous definition and a name `Anonymous<digits>`, and also then if no named definition can be given an anonymous component's name, no store of a run, also within one conversion, replaces what another has put: a name is written twice only to fill its placeholder |
| RegistryClash.ReplacesExactlyWhen | scripts/openapi/generate-openapi.ts:383-443 | for any finite set of definition names, some graph over them and some run, which adds no anonymous name and meets none among Swagger's components, store one component over another if and only if a short name is `Anonymous<k>` with `k` at most the number of anonymous names, or two short names are `Anonymous` and two names are anonymous |
| RegistryOrder.ConvertLater | scripts/openapi/generate-openapi.ts:434-440 | if neither is so, every conversion keeps this: anonymous components get `Anonymous1`, `Anonymous2`, ... in order, the names not given yet are free, and no name given before is entered later |
| RegistryTrace.StoreReplacesExactlyWhen | scripts/openapi/generate-openapi.ts:434-443 | a component's store finds its own placeholder or nothing, or, for an anonymous one, exactly what was stored under its name while its body was converted |
| CleanRuns.RunClean | scripts/openapi/json-schema-to-openapi.ts:57-184 | over any run on any graph in which no object has both `type: "null"` and a union, no result and no component has a type list or the type `null` at any depth |
| CleanRuns.RunMerged | scripts/openapi/json-schema-to-openapi.ts:149-168 | over any run on any graph in which no union and no list of types stands beside an `allOf`, no result and no component has an `allOf` of two or more objects with properties, at any depth |
| CleanRuns.RunTyped | scripts/openapi/json-schema-to-openapi.ts:170-181 | over any run on any graph in which none stands beside an enum, every enum has no null and the scalar type all its values have, at any depth |
| RegistryRuns.SharingIsEarned | scripts/openapi/generate-openapi.ts:419-427 | two definitions share a component only if the short name agrees, and the body but for what is called `description` |
| RegistryRuns.TwinsShare | scripts/openapi/generate-openapi.ts:422-427 | and they do share it when these agree |
| RegistryRuns.SharedExactlyWhen | scripts/openapi/generate-openapi.ts:414-427 | two converted definitions have one component exactly when the short names agree and, unless Swagger owns that name, the bodies but for what is called `description` |
| RegistryRuns.RunShares | scripts/openapi/generate-openapi.ts:414-427 | the same of any two definitions after any run |
| RegistryRuns.RunAnswers | scripts/openapi/generate-openapi.ts:402-418 | after any run a reference to any JSON is answered by an object without constraints and changes nothing, and one whose short name Swagger owns by Swagger's component |
| RunMeaning.SharersAgree | scripts/openapi/generate-openapi.ts:422-427 | definitions that share a component accept the same values, if definitions of one short name and fingerprint do |
| RunMeaning.TwinsAgreeWhen | scripts/openapi/generate-openapi.ts:422-427 | these do if they assert the same, or if `description` is nowhere more than an annotation |
| RunMeaning.SharingKeepsMeaningExactlyWhen | scripts/openapi/generate-openapi.ts:414-427 | components can be read so that each means exactly what every definition converted to it means if and only if the converted definitions that share a component mean the same |
| RegistryMeaning.ConvertFaithful | scripts/openapi/generate-openapi.ts:397-452 | under a meaning of components linked to that of definitions, every conversion agrees with its source, and every component stored meanwhile holds the conversion of a definition converted to it |
| RunMeaning.RunApart | scripts/openapi/generate-openapi.ts:391-395 | the names given by `add` differ from each other and from the components of all definitions, before and after |
| RunMeaning.ConversionKeepsMeaning | scripts/openapi/generate-openapi.ts:391-452 | over any run of `convert` and `add`, for any solution of the definitions' equations under which twins agree, every result agrees with its source and the stored components solve their own equations |
| RunMeaning.EveryGraphKeepsMeaning | scripts/openapi/generate-openapi.ts:370-453 | end to end: for every graph in the fragment and every run each result accepts what its source accepts, and exactly that on the exact fragment, under a reading of the components that is the given one for other assertions and for Swagger's components, which need only describe the definitions in use that they stand for |
| RunMeaning.SwaggerAgreesExactlyWhen | scripts/openapi/generate-openapi.ts:412-417 | Swagger's components can be read so that each means exactly what the definitions in use answered by it mean if and only if those of one short name mean the same |
| OutputMono.OutMono | scripts/openapi/json-schema-to-openapi.ts:108-183 | an output whose `oneOf` variants have types that no value shares accepts more when its references do |
| OutputUnrolling.OutLimitSolves | scripts/openapi/generate-openapi.ts:434-443 | passing every bounded unrolling of the stored components is a reading of them: each means exactly what is stored under its name |
| OutputUnrolling.OutLimitIsGreatest | scripts/openapi/generate-openapi.ts:434-443 | and the greatest one |
| OutputUnrolling.UnrollingKeepsMeaning | scripts/openapi/generate-openapi.ts:391-452 | with sources and results both read by bounded unrolling, every result of every run accepts what its source accepts, and exactly that on the exact fragment |
| OutputUnrolling.EveryGraphUnrolled | scripts/openapi/generate-openapi.ts:370-453 | the same end to end for every graph in the fragment, with conditions on twins that can be checked before the run |
| BoundedMeaning.LimitSolves | scripts/openapi/json-schema-to-openapi.ts:64-67 | passing every bounded unrolling of the references is a solution of the definitions' equations, for every graph without source `oneOf` |
| BoundedMeaning.LimitIsGreatest | scripts/openapi/json-schema-to-openapi.ts:64-67 | and every other solution accepts less |
| RegistryLimits.AnyOfSoundExactlyWhen | scripts/openapi/json-schema-to-openapi.ts:38-47 | the null rewrite of an `anyOf` loses no value of the source exactly when every value but null that is accepted by a variant whose output looks like a bare null is accepted by another variant |
| NullLooks.ConvertLooks | scripts/openapi/json-schema-to-openapi.ts:38-47 | an output is a bare null, or has no constraints, exactly when the source schema is of that kind: a written null, or a union of one schema that says nothing beside such, a default and dropped keys apart, through any anonymous references |
| RegistryLimits.RunLooks | scripts/openapi/generate-openapi.ts:391-452 | this holds of every conversion in every run |
| RegistryLimits.UnionKeptExactlyWhen | scripts/openapi/json-schema-to-openapi.ts:123-136 | read off the source: an `anyOf` loses no value exactly when no variant is translated to a bare null though it accepts more, or the variants that are not, and are translated exactly, accept everything but null |
| UnionRuns.UnionKeptAfterRun | scripts/openapi/json-schema-to-openapi.ts:123-136 | after any run over definitions of the exact fragment, a union whose variants are bare nulls or in that fragment loses no value if and only if no variant is translated to a bare null though it accepts more, or the others accept everything but null; every condition is one on the sources |
| RegistryLimits.VagueUnionRejectsNumbers | scripts/openapi/json-schema-to-openapi.ts:123-136 | a union containing "anything or null" is translated to a nullable string that rejects every number |
| RegistryLimits.NullTypeLeft | scripts/openapi/json-schema-to-openapi.ts:123-144 | `type: "null"` beside "a string or null" is translated to an object that still has the type `null` |
| RegistryLimits.AnonymousReplacesNamed | scripts/openapi/generate-openapi.ts:438-445 | with a definition named `Anonymous1` two definitions end in one component, which holds the anonymous body |
| ComponentRegistryClass.ComponentRegistry.Convert | scripts/openapi/generate-openapi.ts:397-399 | the method's result and the whole new state are those of the function |
| ComponentRegistryClass.ComponentRegistry.FillDraft | scripts/openapi/json-schema-to-openapi.ts:69-106 | the keyword loop fills the local object as specified, threading the registry's state |
| ComponentRegistryClass.ComponentRegistry.ConvertKids | scripts/openapi/json-schema-to-openapi.ts:73-98 | the subschemas of one keyword are converted in order |
| ComponentRegistryClass.ComponentRegistry.Resolve | scripts/openapi/generate-openapi.ts:401-452 | the resolver's updates of its maps, in their order around the recursion, give the specified state |
| ComponentRegistryClass.ComponentRegistry.FreshName | scripts/openapi/generate-openapi.ts:383-389 | the counting loop finds the specified name |
| ComponentRegistryClass.ComponentRegistry.Add | scripts/openapi/generate-openapi.ts:391-395 | the schema is stored under a free name and referred to by it |
| RateLimiter.FreshFresh | src/admin/admin-rate-limiter.ts:28-30 | filtering early loses nothing that a later filter keeps |
| RateLimiter.PruneAgrees | src/admin/admin-rate-limiter.ts:53-59 | pruning at any time keeps the live admissions of every key |
| RateLimiter.CheckRefinesNaive | src/admin/admin-rate-limiter.ts:24-47 | one check gives the verdict and retry value of a limiter keeping the complete history, and keeps the two in agreement |
| RateLimiter.RunRefinesNaive | src/admin/admin-rate-limiter.ts:24-59 | over every run with non-decreasing times all verdicts and retry values are those of that limiter |
| RateLimiter.VerdictExact | src/admin/admin-rate-limiter.ts:24-47 | every verdict of every run, read off the verdicts before: refused exactly when the limit is positive and at least that many earlier checks of the key were admitted less than a minute ago |
| RateLimiter.TrackedExactly | src/admin/admin-rate-limiter.ts:24-59 | which keys and stamps are kept after a check: all of the other keys' up to 2000 keys, else the live ones; of the key's own the live ones and the one just admitted |
| RateLimiter.KeysAreIsolated | src/admin/admin-rate-limiter.ts:22-59 | a key's verdicts do not depend on any other key's traffic |
| RateLimiter.WindowSafety | src/admin/admin-rate-limiter.ts:28-46 | admissions of a key within one window are at most the limit given to the last of them, also when limits change |
| RateLimiter.RetryHintExact | src/admin/admin-rate-limiter.ts:31-43 | the hint lies in 1..60, and is the least sufficient wait exactly when the oldest live stamp and the one that admits the key expire in the same second |
| RateLimiter.ConstantLimitHint | src/admin/admin-rate-limiter.ts:31-43 | under a constant limit it always is |
| RateLimiter.LoweredLimitHint | src/admin/admin-rate-limiter.ts:31-43 | after two admissions half a minute apart and a limit lowered to one the hint is 30 seconds, and the key is still refused then: 60 are needed |
| RateLimiter.AdminRateLimiter.Check | src/admin/admin-rate-limiter.ts:24-47 | the method's verdict and history are the naive limiter's, its lists those of the specification |
| RateLimiter.AdminRateLimiter.PruneAll | src/admin/admin-rate-limiter.ts:53-59 | every list is filtered and emptied keys are gone |
| RateLimiter.AdminRateLimiter.Reset | src/admin/admin-rate-limiter.ts:49-51 | all lists and the history are empty |
| AdminGuard.RefusedTrafficIsInvisible | src/admin/admin.guard.ts:54-121 | removing all requests that fail the gate or the same-origin check changes no other answer and not the limiter's state |
| AdminGuard.GuardDrivesLimiter | src/admin/admin.guard.ts:78-91 | the guard makes exactly one limiter check for each request that gets that far, charged to the account of its session or to its address with the limit for that, and its answer follows from that verdict |
| AdminGuard.AnswersExactly | src/admin/admin.guard.ts:54-153 | every answer of every run, read off the request and the answers before: granted if and only if the gate passes, the request is safe or from the own origin with JSON or no body, fewer than the limit of the client's requests were let through in the last minute, and session, re-enrolment, permission and step-up allow it; and exactly when each refusal is given |
| AdminGuard.ClientsAreIsolated | src/admin/admin.guard.ts:78-88 | a client's verdicts are those of a run of its own charged requests |
| AdminGuard.CanActivate | src/admin/admin.guard.ts:54-121 | the ordered decision, each answer exactly when it is due, with its limiter effect on the client's key; a request refused earlier leaves the limiter untouched |
| AdminGuard.GatedRequest.Pass | src/admin/admin-gate.ts:27-30 | the gate is evaluated at most once for a request and the first outcome is kept |
| AdminGuard.GatedRequest.PassAll | src/admin/admin-gate.ts:19-30 | whoever asks, in any order and number, gets the first outcome |
| BenchmarkPool.EachJobAtMostOnce | scripts/agent-scenarios.ts:1535-1626 | in every interleaving a taken job has exactly one record or one worker, and no job is taken twice |
| BenchmarkPool.FinishedRunRecordsAll | scripts/agent-scenarios.ts:1533-1626 | without a ceiling a finished run has exactly one record for every job if there was a worker, and else none |
| BenchmarkPool.RecordsAllExactlyWhen | scripts/agent-scenarios.ts:1486-1486 | all finished runs without a ceiling have one record for every job if and only if the concurrency given is a number, or there is no job |
| BenchmarkPool.StopsExactlyWhen | scripts/agent-scenarios.ts:1489-1489 | some run is stopped by the ceiling if and only if the ceiling given is a number and there are a job and a worker |
| BenchmarkPool.AtOnceExactly | scripts/agent-scenarios.ts:1624-1626 | so many jobs can be under way at once if and only if there are as many, and it is one or at most the concurrency given |
| BenchmarkPool.NextJobExactly | scripts/agent-scenarios.ts:1537-1544 | a worker takes the next job exactly when less than the ceiling given in dollars was spent and a job is left |
| BenchmarkPool.SpendBelowCeiling | scripts/agent-scenarios.ts:1538-1541 | at any moment, apart from the last few records, at most as many as there are workers, less than the ceiling was spent |
| BenchmarkPool.SpendBound | scripts/agent-scenarios.ts:1538-1599 | total spend is below the ceiling plus `concurrency` times the dearest job |
| WriterPool.EveryIdInOnePlace | scripts/write-cook-scenarios.ts:748-797 | in every interleaving, at every moment, an id is in as many places (queue, worker, done with) as it has occurrences in the list |
| WriterPool.NeverMoreThanLimit | scripts/write-cook-scenarios.ts:768-774 | recipes written and being written never exceed the limit; an id is let go only when it is reached, at most one for each worker |
| WriterPool.FinishedRunAccounts | scripts/write-cook-scenarios.ts:751-797 | a finished run accounts for every id; it was stopped exactly by the limit or the budget; unstopped, with no load that threw, every id is done, or still queued if there was no worker |
| WriterPool.LimitKeptExactlyWhen | scripts/write-cook-scenarios.ts:173-173 | all runs keep the limit given exactly when it is at least one, or the list is empty, or there is no worker |
| WriterPool.AllDoneExactlyWhen | scripts/write-cook-scenarios.ts:177-178 | all finished runs that were not stopped and lost no load are done with every id exactly when the concurrency given is at least one or the list is empty |
| WriterPool.AtOnceExactly | scripts/write-cook-scenarios.ts:795-797 | so many recipes can be under way at once if and only if there are as many and it is at most the concurrency given |
| WriterPool.EntriesExactly | scripts/write-cook-scenarios.ts:751-793 | the entries of each kind are as many as loads and writes that ended in that way |
| ImageRun.OkStaysOk | scripts/recraft-recipe-images.ts:408-452 | over any runs cut anywhere, with any interleaving and options, an id once `ok` in the file stays `ok` |
| ImageRun.StopFreezesTheRest | scripts/recraft-recipe-images.ts:408-430 | after an out-of-credit stop, until the process ends, an id's entry can change only if a worker was making that id at the stop |
| ImageRun.KeyNeverChanges | scripts/recraft-recipe-images.ts:397-399 | without force and approved pictures, and with the id named once for each run, a good entry is never changed again |
| ImageRun.ReplacedExactlyWhenNamedTwice | scripts/recraft-recipe-images.ts:389-399 | within one run a good picture can be replaced by another exactly when the list names its id twice and the concurrency given is a number |
| ImageRun.ResumeTakesTheUnfinished | scripts/recraft-recipe-images.ts:397-399 | after a run cut or stopped anywhere, the next one queues exactly the ids without a good picture before and for which none was made |
| ImageRun.FinishedRunAttemptsAll | scripts/recraft-recipe-images.ts:408-462 | a finished run attempted or gave up every queued id as often as it was queued, but for those still in the queue; unstopped, it attempted all of them if there was a worker, and else none |
| ImageRun.AttemptsAllExactlyWhen | scripts/recraft-recipe-images.ts:460-462 | all runs that end unstopped have attempted every queued id if and only if the concurrency given is a number, or nothing was queued |
| ImageRun.AtOnceExactly | scripts/recraft-recipe-images.ts:460-462 | so many pictures can be in the making at once if and only if as many are queued, and it is one or at most the concurrency given |
| ImageRun.QueueExactly | scripts/recraft-recipe-images.ts:389-399 | a start queues an id as often as it is asked for, exactly when its picture is approved, forced or not good yet; an empty list or an unknown id queues nothing |
| ImageRun.FileExactly | scripts/recraft-recipe-images.ts:432-445 | over any run of a process the file's entry for an id is what its attempts say: the last good picture made, marked if a later attempt failed; else the good one that was there, marked; else a failure; untouched without an attempt |
| ImageAttempts.ProcessRecipe | scripts/recraft-recipe-images.ts:352-371 | the first try that is good or throws decides; otherwise the framed try with the greatest ratio, the earliest of equals, is taken and marked weak; otherwise the recipe has failed; every try is recorded |
| TextPatch.PatchArrayText | scripts/lib/katalog-500-2026-09.ts:175-211 | the loop over lines and its error cases give the specified outcome |
| TextPatch.ScanBody | scripts/lib/katalog-500-2026-09.ts:186-197 | splitting printed elements gives back exactly those elements, with nothing left over |
| TextPatch.OutcomeExactly | scripts/lib/katalog-500-2026-09.ts:181-211 | each outcome read off the text: no such array; something behind the last closing line; an element that cannot be read; a result that cannot be read; else the patched text |
| TextPatch.KeepAllIsIdentity | scripts/lib/katalog-500-2026-09.ts:175-211 | keeping everything and adding nothing gives the text back exactly when the array's lines are tidy or one empty line |
| TextPatch.OutputHoldsKeptAndExtra | scripts/lib/katalog-500-2026-09.ts:198-208 | the output's elements are the kept ones, line for line, then the extras; the text before and after the array is untouched |
| TextPatch.RewritingIsIdempotent | scripts/lib/katalog-500-2026-09.ts:649-655 | dropping one's own elements and writing them at the end, done twice, equals doing it once |
| TextPatch.AppendWritesTheSame | scripts/lib/katalog-1000-2026-09.ts:261-277 | with something to add, the append-only form and the patch keeping everything write the same text exactly when the array's lines are tidy |
| TextPatch.AppendIsKeepAllPatch | scripts/lib/katalog-1000-2026-09.ts:261-277 | whenever the patch succeeds on a tidy array, the append-only form has the same outcome, also with nothing to add |
| TextPatch.AppendToEmpty | scripts/lib/katalog-1000-2026-09.ts:263-275 | on an array with nothing between its lines the append-only form throws, for a reader that refuses a comma behind the opening bracket, where the patch writes the extras |
| PrintedDocument.AppendLandsLast | scripts/lib/katalog-1000-2026-09.ts:263-275 | in a printed document what is appended becomes the last items of the last top-level list that has one |
| PrintedDocument.AppendLandsExactlyWhen | scripts/lib/katalog-1000-2026-09.ts:263-275 | it lands in the list that was named exactly when no later top-level member is a list with an item |
| PrintedDocument.PatchRewritesList | scripts/lib/katalog-500-2026-09.ts:181-208 | in the last such list the patch sees exactly the printed items, and writes the document printed with the new ones |
| JsonPrint.ElementIsChunk | scripts/lib/katalog-500-2026-09.ts:199-204 | an indented printed value reads back as one element exactly when it is an object with a member |
| IngredientTags.DerivedIsUnion | scripts/load-ingredient-tags.ts:89-115 | the tags derived from the joined and grouped rows are exactly those some ingredient of the recipe has |
| IngredientTags.LoadedCarriesUnion | scripts/load-ingredient-tags.ts:156-174 | after the transaction every recipe carries the union, whatever it carried before |
| IngredientTags.LoadGivesTags | scripts/load-ingredient-tags.ts:53-75 | every ingredient gets the tags the file gives its name and keeps its own if the file gives none; reported as missing are exactly the names without a row |
| IngredientTags.UpdatedExactly | scripts/load-ingredient-tags.ts:53-75 | with distinct names as many rows are updated as have a name of the file |
| IngredientTags.TagLoader.LoadIngredientTags | scripts/load-ingredient-tags.ts:53-75 | the update loop: new rows, number of rows updated, and the entries that match none |
| IngredientTags.TagLoader.Group | scripts/load-ingredient-tags.ts:98-106 | the grouping loop collects every recipe's tag lists in order |
| IngredientTags.TagLoader.RecomputeRecipeTags | scripts/load-ingredient-tags.ts:82-127 | every recipe gets the union of its ingredients' tags, and `changed` counts the rows that differ |
| IngredientTags.TagLoader.Load | scripts/load-ingredient-tags.ts:129-174 | an inconsistent file changes nothing; a consistent one changes both tables together |
| Startup.RecipesAlwaysCarryUnion | scripts/prisma-migrate-deploy-safe.js:689-705 | over any starts, each cut between any two writes and with its own files, every recipe's tags are the union of its ingredients' tags |
| Startup.WithRecipeKeepsUnion | scripts/import-recipes-from-json.ts:382-445 | importing one recipe, new or replacing another, keeps this for all recipes |
| StartupOutcome.WithRecipeExactly | scripts/import-recipes-from-json.ts:382-445 | one imported recipe is there once with exactly its links, each once; every other recipe and link, and every ingredient, is as it was |
| StartupOutcome.BootstrapOutcome | scripts/prisma-migrate-deploy-safe.js:453-496 | after any starts cut anywhere, a start on an empty or rebuilt database with the bootstrap enabled finishes, if it is not cut, if and only if its files can be loaded; then the database holds exactly the catalog's names, tagged by the file, and the file's recipes with exactly their links |
| StartupOutcome.OtherOutcome | scripts/lib/bootstrap-decision.js:80-112 | any other start leaves the database, emptied by a rebuild or as it was, but tags it by the file exactly when the loader is enabled, there are ingredients and none is tagged, and fails without a write when that file is inconsistent |
| Startup.MigratedBaseCarriesUnion | scripts/lib/bootstrap-decision.js:56-57 | a database just migrated, with empty tag columns, satisfies it |
| Startup.FinishedStartIsTagged | scripts/lib/bootstrap-decision.js:80-112 | a start that finishes with the loader enabled leaves some ingredient tagged, unless its file tags none of them |
| Startup.TagsLoadAtMostOnce | scripts/prisma-migrate-deploy-safe.js:453-466 | between two rebuilds at most one load leaves anything tagged; only a load that tagged nothing is repeated |
| Startup.ImportMeetsEmptyTable | scripts/prisma-migrate-deploy-safe.js:468-496 | the bootstrap's import always meets an empty recipe table |
| Startup.CutBootstrapStaysIncomplete | scripts/lib/bootstrap-decision.js:31-53 | on a database with anything in it, wherever a bootstrap was cut, no later start without a rebuild changes which ingredients or recipes there are |
| Startup.CutBootstrapIsReached | scripts/prisma-migrate-deploy-safe.js:468-475 | a start on any empty database, cut after its first ingredient, leaves that ingredient and no recipe |
| Startup.FilledExactlyFromEmpty | scripts/lib/bootstrap-decision.js:31-53 | some starts without a rebuild change which ingredients or recipes there are if and only if the database is empty |
| ResetAccounts.ResetScript.Run | scripts/reset-accounts.ts:78-196 | a run that is not allowed, finds no catalog or finds the bot's sign-in name taken changes nothing and does not say that it is done; any other takes all seven steps |
| ResetAccounts.EndsExactly | scripts/reset-accounts.ts:78-155 | the reset is done if and only if it is asked for and allowed, there is a catalog, and the bot exists or its sign-in name is free; and which outcome each hindrance gives |
| ResetAccounts.ResetScript.EnsureCatalogContext | scripts/reset-accounts.ts:213-254 | the three upserts, one after another, or an error without a change when the bot's sign-in name is taken |
| ResetAccounts.CatalogConservedByEveryPrefix | scripts/reset-accounts.ts:157-181 | after any number of the steps every recipe selected as catalog is there with its id, content and ingredient rows |
| ResetAccounts.CompletedReset | scripts/reset-accounts.ts:157-181 | one user, one household and one membership, each as the script writes it, foreign keys intact, and exactly which recipes, rows and other records remain, and how |
| ResetAccounts.SelectionSurvivesCut | scripts/reset-accounts.ts:206-210 | after a cut between any two steps, each upsert being one, a new run selects exactly the same recipes |
| ResetAccounts.CutRunIsRepaired | scripts/reset-accounts.ts:78-196 | a run cut after any number of the seven steps can be repeated to the end, and ends in the very state of a run that was not cut |
| UsageReport.ModelTableHolds | scripts/agent-usage-report.ts:75-102 | every model that occurs has one cell, with the sums over exactly its rows |
| UsageReport.ModelSums | scripts/agent-usage-report.ts:75-102 | each number of a model's cell is the sum of its own column over that model's rows |
| UsageReport.TurnTableHolds | scripts/agent-usage-report.ts:112-139 | every turn has one cell with its rows' cost and number; its call count is absent exactly when one of its rows has none |
| UsageReport.OneCellExactly | scripts/agent-usage-report.ts:121-138 | two rows are counted in one cell exactly when they have one turn, or none and one household, or a turn that is called like the cell of none |
| UsageReport.HouseholdTableHolds | scripts/agent-usage-report.ts:192-199 | every household has one cell with the cost and number of the turns charged to it |
| UsageReport.Report | scripts/agent-usage-report.ts:75-199 | the costs per model, per turn and per household each sum to the cost of all rows |
| UsageReport.HouseholdCostIsItsRows | scripts/agent-usage-report.ts:121-138 | when no turn has rows of two households, each household's cost is that of exactly its own rows |
| UsageReport.TurnOfTwoHouseholds | scripts/agent-usage-report.ts:121-138 | of two rows of one turn and two households the second's cost is shown for the first one's household |
| UsageReport.ChargesRightExactlyWhen | scripts/agent-usage-report.ts:121-138 | for given turns and households of the rows, every household is charged with its own rows, whatever they cost, if and only if no turn has rows of two households |
| Percentile.SortedPercentile | scripts/agent-usage-report.ts:18-25 | for 0 < p <= 100 the formula gives the least value whose rank, duplicates counted, reaches p hundredths of the number of values |
| Percentile.UnsortedPercentile | scripts/agent-scenarios.ts:1182-1190 | so does the form that sorts a copy first, for values in any order |
| Percentile.PercentileIsUnique | scripts/agent-usage-report.ts:18-25 | there is only one such value |

## Left out

- Calls to the model, image, storage, mail and database services: their results are parameters of the model.
- Route scanning, Swagger metadata, formatting and the rest of the generator around the translation and the registry.
- The meaning of components that Swagger describes itself: assumed to agree with the definitions in use that they stand for.
- Source `oneOf` and tuples: translated and covered by the closure, output-shape and termination results, but outside the fragment of the meaning results, since the `oneOf` of the output need not select the same variant.
- Naming only the items of an array response, and the choice between naming and inlining a response.
- Malformed keyword values, a key `nullable` in the source, `decodeURIComponent`, and the list of naming warnings.
- The order of members: fingerprints compare bodies as written, `properties` and `required` of the output are a map and a set.
- Number rounding: JSON numbers and ratios are reals, costs and percentile arguments whole numbers.
- A clock that runs backwards, torn writes of the image state file, and two processes sharing that file.
- Name normalisation, nutrition and sodium steps of a start, which touch neither tags nor recipes' ingredient links.
- The repair of failed migrations before `migrate deploy`.
- The curation rules for a tag entry: one flag of the tag file.
- Tag lists as lists: read as sets, so a repeated tag in a row is not distinguished.
- The date and host conditions of the rebuild and reset guards: their decision is a parameter.
- In the reset, rows that hang on users other than memberships and recipes, and links between recipes.
- The pools as objects: workers and shared variables are values of one state, because a run is a sequence of interleaved steps; closures and promises are not modelled.
- ImageAttempts.ProcessRecipe: the attempt loop only; the one-shot and the approved-picture paths make a single attempt, and centring and uploading the chosen picture is outside.
- JSON parsing in the patcher: a function from an element's lines to its value, and a predicate on the whole output.
- BenchmarkPool.FinishedRunRecordsAll: counts records by job, not their order, which depends on the interleaving.
- Startup.TagsLoadAtMostOnce: loads started by hand beside the container starts are not counted.
