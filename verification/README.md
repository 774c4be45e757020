# hsuan-fuzz in Dafny

A Dafny model of the core of hsuan-fuzz, a coverage-guided fuzzer for REST APIs described by
an OpenAPI document. The model follows the Go package `pkg/rest-api` and the corpus store
`internal/go-fuzz/persistent.go`:

- **Text** (`text.dfy`): byte strings as `seq<char>`. Covers `strings.ReplaceAll`,
  `strconv.Itoa`/`Atoi`/`ParseUint`, and Go's byte-wise string order with `sort.Strings`.
- **Values** (`values.dfy`): the `structpb.Value` tree that requests carry, and the
  `Option`/`Result` wrappers. A Go panic is a `Failure` carrying its message. Go rewrites a
  leaf through a pointer; the model names the leaf by a path and rewrites it there (`Put`).
- **Base**, **Api** (`base.dfy`, `api.dfy`): grammar nodes and requests, the parts of the
  OpenAPI document and of `Dependency.yml` that the fuzzer reads, and the foreign codecs,
  which are given functions.
- **KeyPath** (`keypath.dfy`): the splitter that turns a dependency key such as
  `data{items[{id}]}` into fastjson lookup keys. The mutator and the token fetcher share it.
- **Grammar** (`grammar.dfy`): `generateGrammar`, `newNode`, `getRequestParameters` and
  `getOperationFlows`, which build the grammar.
  - One group per sorted path. Each group is visited in its dependency order.
  - Within a group the methods go in a fixed order, and DELETE nodes are deferred to the
    end, latest path first.
  - An operation gets one copy of its node per response that is not excluded.
- **Mutator** (`mutator.dfy`): `getStringValue`, `getKeyValue`, `isRelated` and
  `adoptStrategies`. Two leaves are selected per node. Dependency values are substituted
  from cached responses. A selected leaf is deleted, changed to another type, or passed
  through the byte mutator.
- **Sender** (`sender.dfy`): `SendRequest`.
  - Renders path, query, header and JSON body, and places the bearer key.
  - Reports the 599 sentinel for an exchange that fails.
  - Caches JSON answers by group and path in a `GroupCache` object.
- **Analyzer** (`analyzer.dfy`): `getCoverageLevels` and `isIndividualIncrease`.
  - Goal and seed criteria for each operation.
  - The level ladder from 2 to 6, and the strict-mode level-7 rule.
  - The coverage vector, and its pointwise-maximum merge.
- **Persistent** (`persistent.dfy`): the content-addressed `PersistentSet` and its mirror
  directory. Covers hex file names, loading a directory, `Add` and `AddDescription`.
- **Auth** (`token.dfy`): `GetToken`, the login that yields the bearer key.
- **Fuzzer** (`fuzzer.dfy`): the rest of `hsuanfuzz.go`.
  - `New`'s checks (server, directory, strict-mode files) and the `Dependency.yml` template.
  - `Coverage.String`.
  - The `HsuanFuzz` class, whose `Step` is one iteration of the `Fuzz` loop: seed, dequeue,
    mutate, log in, send, archive crashes, score, merge and keep the seed.

Objects whose fields Go updates in place are classes:
- `HsuanFuzz`: token, stored coverage, queue and grammar;
- `PersistentSet`: blobs and directory;
- `GroupCache`: the cached answers.

Each of their methods is stated against a specification function (`Sends`, `CacheFold`,
`ArchiveFold`, `CoverageSpec`, `NodeRound`, `TokenSpec`, `LoadSpec`, `WriteOnce`), and the
properties are proved about those functions as lemmas. Pure Go code (value rendering, flattening, the
ladder) is modelled as functions and lemmas. Loops are methods with invariants, each proved
equal to a prefix-fold function.

Three behaviours of the code are worth stating outright, since the model follows them:
- **Output goals.** An operation that declares any of `default`, `401`, `403` or `500` gets
  no output goal at all: `pkg/rest-api/analyzer.go:115-128` skips every response once any
  excluded code is declared, not just the excluded responses.
- **Level 7.** In strict mode, level 7 is granted to every method of a path that has a
  POST, not only to the POST (`pkg/rest-api/analyzer.go:422-451`).
- **Response cache.** The group cache is created once by `New`
  (`pkg/rest-api/hsuanfuzz.go:379-381`) and never cleared between iterations.

## Model

| member | source | states |
|---|---|---|
| Text.SortStrings | pkg/rest-api/hsuanfuzz.go:295 | sort.Strings: the result is in Go's byte-wise order and is a permutation of the input |
| Text.SortedUnique | pkg/rest-api/hsuanfuzz.go:290-295 | two sorted sequences holding the same strings are equal, so the sorted path list does not depend on map iteration order |
| Text.AtoiIntToString | pkg/rest-api/hsuanfuzz.go:117 | strconv.Itoa read back by Atoi gives the number, for every int64 |
| Text.AtoiNatural | pkg/rest-api/hsuanfuzz.go:117 | the decimal text of a number up to the int64 maximum reads back as that number |
| Text.AtoiNegative | pkg/rest-api/hsuanfuzz.go:117 | a minus sign before the decimal text of a magnitude up to 2^63 reads back as the negative number |
| Text.ParseUintNatToString | internal/go-fuzz/persistent.go:75 | the meta number written after the digest parses back with ParseUint, for every uint64 |
| Text.RemoveAllChar | pkg/rest-api/token.go:114 | removing every double quote leaves none and never lengthens the text |
| Text.ReplaceAbsent | pkg/rest-api/sender.go:79 | text that does not contain the pattern is not changed by ReplaceAll |
| Values.PutAt | pkg/rest-api/mutator.go:409-436 | writing through a leaf's pointer makes the leaf hold the written value |
| Values.PutFrame | pkg/rest-api/mutator.go:354-401 | a write at one leaf leaves every node at a path apart from it untouched |
| Values.PutMissing | pkg/rest-api/mutator.go:325-345 | a write through a path that leads nowhere, such as a leaf whose key was deleted, leaves the request as it was |
| Values.PutScalarShape | pkg/rest-api/mutator.go:281-303 | replacing a scalar by a scalar keeps the scalars and lists of the tree at the same places |
| Values.PutScalarFrame | pkg/rest-api/mutator.go:237-440 | rewriting one scalar leaf leaves every other scalar leaf as it was |
| Values.BelowScalar | pkg/rest-api/mutator.go:105-108 | nothing hangs below a path that leads to a scalar |
| Values.RemoveKey | pkg/rest-api/mutator.go:331-337 | deleting a key removes exactly the fields of that key and keeps all others |
| Values.Find | pkg/rest-api/mutator.go:331-337 | finds the first field with the key, or reports that none has it |
| Api.CountDeclared | pkg/rest-api/grammar.go:74-79 | the count of excluded codes an operation declares is at most their number, and is 0 exactly when it declares none |
| KeyPath.Split | pkg/rest-api/mutator.go:248-276 | the character loop yields exactly the segments of the key |
| KeyPath.SplitRender | pkg/rest-api/token.go:75-103 | a key in nested form `a{b[{c}]}` splits into exactly the fields it names, with "0" for each first-element step |
| KeyPath.OpenAlwaysEmits | pkg/rest-api/mutator.go:252-261 | an opening brace always emits the pending segment, even when it is empty |
| KeyPath.CloseTwiceEmitsOnce | pkg/rest-api/mutator.go:263-268 | a closing bracket right after another emits nothing |
| KeyPath.TrailingIgnored | pkg/rest-api/mutator.go:250-276 | text after the last bracket is never emitted |
| KeyPath.SegmentsGrow | pkg/rest-api/mutator.go:250-276 | reading more characters never takes back an emitted segment |
| Mutator.RenderJoinIsJoin | pkg/rest-api/mutator.go:51-66 | with appendList, a list renders as its rendered elements joined by ", " |
| Mutator.RenderEncoded | pkg/rest-api/mutator.go:29-42 | when decode is set, a string the grammar base64-encoded renders as the original text |
| Mutator.RenderNumber | pkg/rest-api/mutator.go:25-27 | a rendered number reads back as the same number, for every int64 |
| Mutator.FlattenAllFails | pkg/rest-api/mutator.go:202-212 | the first request whose flattening panics ends the leaf collection with that panic |
| Mutator.ScalarListLeaves | pkg/rest-api/mutator.go:120-129 | each scalar element of a list gives one leaf keyed by the list's key and pointing at the whole list |
| Mutator.ScalarFieldLeaves | pkg/rest-api/mutator.go:110-118 | a struct of scalar fields gives one leaf per field, in field order, keyed by the field |
| Mutator.TripleListRejected | pkg/rest-api/mutator.go:141-164 | a list nested three deep always panics |
| Mutator.RequestLeavesSound | pkg/rest-api/mutator.go:98-177 | every leaf of a well-formed request leads to a scalar or to a list |
| Mutator.FirstTwoSpec | pkg/rest-api/mutator.go:214-234 | the selection holds exactly two distinct in-range indices, and it is reached whenever the draws show two different indices |
| Mutator.ChooseTwo | pkg/rest-api/mutator.go:217-232 | the draw loop yields the selection FirstTwo specifies |
| Mutator.Related | pkg/rest-api/mutator.go:179-192 | false outside strict mode; in strict mode, true exactly when an item of the path names the key; a path missing from the dependency file panics |
| Mutator.SubstituteOne | pkg/rest-api/mutator.go:245-305 | without a cached source body the leaf is unchanged; with one, a cached body that is not JSON panics (the message is a stand-in, see Left out), and otherwise a number becomes the integer found and a string the base64 of the string found, and any other leaf stays as it is |
| Mutator.SubstituteAll | pkg/rest-api/mutator.go:242-307 | the items in turn keep the leaf's kind and change only numbers and strings |
| Mutator.SubstituteAllMeaning | pkg/rest-api/mutator.go:242-307 | the chain fails at the first cached body that is not JSON; otherwise the leaf is what the last item with a cached body makes of it, or unchanged when none has one |
| Mutator.FirstUnreadable | pkg/rest-api/mutator.go:242-280 | the first item whose cached body is not JSON, with every earlier item's body JSON |
| Mutator.LastCached | pkg/rest-api/mutator.go:242-245 | the last item whose source body is cached, with no later item cached |
| Mutator.ChangeType | pkg/rest-api/mutator.go:347-401 | a number becomes a bool exactly on coin 0 and otherwise a number, a string becomes a number exactly on coin 0 and otherwise a bool, a bool becomes a string exactly on coin 0 and otherwise a number; the new number is the rendering's first byte, the new bool whether that byte is even, the new string the rendering's base64 (0, false or the encoded empty string when the rendering is empty) |
| Mutator.Rewrap | pkg/rest-api/mutator.go:403-437 | the byte mutator's output is put back in the leaf's own kind: first byte for a number, its parity for a bool, the base64 text for a string |
| Mutator.RewrapSendsMutation | pkg/rest-api/mutator.go:427-434 | a mutated string leaf is sent as exactly the mutator's output |
| Mutator.BoolToStringSendsText | pkg/rest-api/mutator.go:386-393 | a bool changed into a string is sent as "true" or "false" |
| Mutator.FirstWithKey | pkg/rest-api/mutator.go:329-345 | the first request whose top-level fields hold the key, or none |
| Mutator.DeleteKeyFirst | pkg/rest-api/mutator.go:325-345 | the key leaves only the first request that holds it; nothing else changes |
| Mutator.DeleteKeepsKeys | pkg/rest-api/mutator.go:325-345 | a delete keeps the request locations and adds no key |
| Mutator.CollectLeaves | pkg/rest-api/mutator.go:202-212 | the collection loop yields the flattening of every request in order |
| Mutator.MutateLeaves | pkg/rest-api/mutator.go:237-440 | the leaf loop: substitution, then the action for selected leaves, leaf by leaf |
| Mutator.StepsFail | pkg/rest-api/mutator.go:237-440 | a panic at one leaf ends the node's round with that panic |
| Mutator.AdoptNode | pkg/rest-api/mutator.go:196-440 | one node's round is collection, selection and the leaf loop |
| Mutator.AdoptStrategies | pkg/rest-api/mutator.go:194-444 | every node is replaced by its own mutated self; otherwise the round stops at the first node that panics |
| Mutator.AdoptLoop | pkg/rest-api/mutator.go:194-444 | the node loop replaces each node by its round, or stops at the first round that panics |
| Mutator.AdoptAt | pkg/rest-api/mutator.go:196-440 | one node's round, as the node loop runs it |
| Mutator.LeafStepKeepsKeys | pkg/rest-api/mutator.go:237-440 | one leaf's step keeps the request locations and adds no top-level key |
| Mutator.StepsKeepKeys | pkg/rest-api/mutator.go:237-440 | the leaf loop keeps the request locations and adds no top-level key |
| Mutator.AdoptNodeKeepsShape | pkg/rest-api/mutator.go:194-444 | a round keeps group, path, method and request locations, and only removes top-level keys |
| Mutator.SelectionGatesAction | pkg/rest-api/mutator.go:311-316 | with two or more leaves, an unselected and unrelated leaf is left alone; a lone leaf always reaches the action |
| Grammar.FlowsOf | pkg/rest-api/grammar.go:181-200 | outside strict mode there are no flows |
| Grammar.FlowsOfFails | pkg/rest-api/grammar.go:181-200 | in strict mode, an item anywhere in the list whose source is missing from the dependency file or already on the call chain makes the computation fail |
| Grammar.FlowsNamePaths | pkg/rest-api/grammar.go:181-200 | flows name only dependency paths, never "x" and never a path on the call chain |
| Grammar.OrderEndsWithPath | pkg/rest-api/grammar.go:17-22 | an order ends with its path, names it nowhere else, and names only dependency paths |
| Grammar.Orders | pkg/rest-api/grammar.go:17-28 | every dependency path gets an order; only strict mode can fail |
| Grammar.NonStrictOrders | pkg/rest-api/grammar.go:24-28 | outside strict mode every sorted path is visited alone |
| Grammar.ComputeOrders | pkg/rest-api/grammar.go:17-28 | the order loop computes Orders |
| Grammar.AddSingles | pkg/rest-api/grammar.go:24-28 | each sorted path gets the order that visits it alone, overriding earlier orders |
| Grammar.MergeParams | pkg/rest-api/grammar.go:67-70 | every parameter name is present, and each maps to a parameter of that name |
| Grammar.LastParamWins | pkg/rest-api/grammar.go:67-70 | the operation's parameter replaces the path's parameter of the same name |
| Grammar.SortedNames | pkg/rest-api/grammar.go:94-98 | the merged parameter names, each once, in byte order |
| Grammar.EncodeParam | pkg/rest-api/grammar.go:116-122 | a non-empty string example is base64-encoded; anything else is kept |
| Grammar.ParamRequestsMeaning | pkg/rest-api/grammar.go:100-132 | one single-field request per name, at the parameter's location; a missing example panics, exactly then |
| Grammar.ParamsLayout | pkg/rest-api/grammar.go:100-132 | the i-th parameter request is a single field named by the i-th name |
| Grammar.EncodeLeaves | pkg/rest-api/grammar.go:155-168 | encoding body strings keeps the number and the locations of the requests |
| Grammar.EncodeLeavesEncodes | pkg/rest-api/grammar.go:160-167 | a non-empty string named by exactly one leaf comes out base64-encoded |
| Grammar.EncodeLeavesKeeps | pkg/rest-api/grammar.go:160-167 | any other scalar, and a non-empty string no leaf names, keeps its value |
| Grammar.BodySpecEncodes | pkg/rest-api/grammar.go:154-170 | in a body built from a well-formed example, every non-empty string a leaf names comes out base64-encoded |
| Grammar.BodySpecKeeps | pkg/rest-api/grammar.go:154-170 | in a body, every other scalar keeps its value, strings inside lists included |
| Mutator.FlattenOnce | pkg/rest-api/mutator.go:98-177 | in a well-formed value, no two leaves name the same scalar |
| Mutator.RequestNamedOnce | pkg/rest-api/mutator.go:98-177 | the leaves of a well-formed request name each of its scalars at most once |
| Grammar.JsonMedia | pkg/rest-api/grammar.go:136-138 | only JSON media types produce body requests |
| Grammar.BodyRequestsMeaning | pkg/rest-api/grammar.go:134-176 | one body request per JSON media type, in order; strict mode panics on a JSON type without an example |
| Grammar.RequestsLayout | pkg/rest-api/grammar.go:90-179 | parameter requests first, one per distinct name in strictly increasing order, each at its location; then JSON body requests |
| Grammar.RequestsShape | pkg/rest-api/grammar.go:90-179 | the requests are the parameter requests, followed by the body requests when a body is declared |
| Grammar.BuildRequests | pkg/rest-api/grammar.go:90-179 | getRequestParameters as built computes RequestsSpec |
| Grammar.BuildParams | pkg/rest-api/grammar.go:100-132 | the parameter loop computes ParamRequests |
| Grammar.ParamsFail | pkg/rest-api/grammar.go:105-108 | the first parameter without an example ends the build |
| Grammar.BuildBodies | pkg/rest-api/grammar.go:134-176 | the media-type loop computes BodyRequests |
| Grammar.BodiesFail | pkg/rest-api/grammar.go:141-146 | the first failing body ends the build |
| Grammar.EncodeBody | pkg/rest-api/grammar.go:155-170 | collecting the body's leaves and encoding their strings gives BodySpec |
| Grammar.EncodeAll | pkg/rest-api/grammar.go:155-168 | the leaf loop encodes the body's string leaves as EncodeLeaves says |
| Grammar.NodesMeaning | pkg/rest-api/grammar.go:54-88 | a missing path panics; an undeclared method yields no node; a declared one yields one identical node per response that is not excluded |
| Grammar.NewNode | pkg/rest-api/grammar.go:54-88 | newNode as built computes NodesSpec |
| Grammar.CountExcluded | pkg/rest-api/grammar.go:74-79 | the counting loop counts the excluded codes declared |
| Grammar.GroupFoldParts | pkg/rest-api/grammar.go:35-45 | deferred nodes are all DELETE and the others none; all carry the group id and one of its paths |
| Grammar.PathDeletes | pkg/rest-api/grammar.go:38-41 | a path's DELETE batch goes in front of the deferred nodes |
| Grammar.DeletesReversed | pkg/rest-api/grammar.go:35-45 | DELETE batches come out in reverse path order |
| Grammar.GroupLayout | pkg/rest-api/grammar.go:33-48 | no DELETE node precedes a node of another method, and the tail is the DELETE batches, latest path first |
| Grammar.GroupTags | pkg/rest-api/grammar.go:33-48 | every node of a group carries the group id and one of the group's paths |
| Grammar.VisitPath | pkg/rest-api/grammar.go:37-43 | the method loop of one path advances the group fold |
| Grammar.GroupNodes | pkg/rest-api/grammar.go:33-48 | a group is the fold's non-DELETE nodes followed by its deferred DELETE nodes, or the fold's panic (GroupSpec) |
| Grammar.FoldOrder | pkg/rest-api/grammar.go:35-45 | the path loop of a group computes the fold over the visits of its order |
| Grammar.GrammarLayout | pkg/rest-api/grammar.go:31-48 | group ids run from 1 to the number of sorted paths and never decrease; a node of group g belongs to the g-th path's order |
| Grammar.GrammarFails | pkg/rest-api/grammar.go:31-48 | the first group that panics ends the build |
| Grammar.GenerateGrammar | pkg/rest-api/grammar.go:14-52 | the orders, then one group per sorted path, or the orders' panic |
| Grammar.GroupLoop | pkg/rest-api/grammar.go:31-48 | the group loop yields GrammarSpec over the sorted paths, or the first group's panic |
| Grammar.BuildGroup | pkg/rest-api/grammar.go:33-48 | one group's nodes, as GroupSpec gives them for its path order |
| Analyzer.WithinThresholds | pkg/rest-api/analyzer.go:48-54 | nothing to reach counts as reached; otherwise the ratio must be at least 0.5 |
| Analyzer.Goal | pkg/rest-api/analyzer.go:68-167 | without a body, the input goal is the parameter names; with one, JSON types and example keys; declaring an excluded code blanks the output goal |
| Analyzer.GoalResponses | pkg/rest-api/analyzer.go:115-167 | without an excluded code, the output goal is exactly the declared codes (0 for one that is not a number), their hundreds, "json" when some response content is JSON, and the keys of every response example |
| Analyzer.Goals | pkg/rest-api/analyzer.go:66-171 | one goal per operation of the document; only strict mode can fail |
| Analyzer.SeedOf | pkg/rest-api/analyzer.go:178-220 | a response's seed holds its code and its code class, with Go's truncating division |
| Analyzer.UnionCommutes | pkg/rest-api/analyzer.go:226-253 | merging two seeds does not depend on their order |
| Analyzer.UnionEmpty | pkg/rest-api/analyzer.go:222-255 | merging into an empty seed gives the response's own criteria |
| Analyzer.Seeds | pkg/rest-api/analyzer.go:174-259 | the response loop computes SeedsSpec |
| Analyzer.SeedsFail | pkg/rest-api/analyzer.go:174-259 | a panic at one response ends the scoring |
| Analyzer.UnionOfCovers | pkg/rest-api/analyzer.go:222-255 | every response's criteria are in the union for its operation |
| Analyzer.UnionOfUnseen | pkg/rest-api/analyzer.go:222-255 | an operation no response reached has an empty union |
| Analyzer.SeedsKeys | pkg/rest-api/analyzer.go:222-255 | the seeds hold exactly the operations that were sent |
| Analyzer.SeedsAreUnions | pkg/rest-api/analyzer.go:222-255 | each operation's seed is the union of what its responses met, in any order |
| Analyzer.SeedsCover | pkg/rest-api/analyzer.go:222-255 | each response's criteria are part of the seed of its operation |
| Analyzer.LadderSpec | pkg/rest-api/analyzer.go:282-393 | the first failed check decides the level, which lies between 2 and 6 |
| Analyzer.CountIn | pkg/rest-api/analyzer.go:304-317 | counts the goal keys and those present in the seed |
| Analyzer.AllIn | pkg/rest-api/analyzer.go:283-289 | true exactly when every goal key is in the seed |
| Analyzer.Ladder | pkg/rest-api/analyzer.go:275-395 | the ladder with its `next` flag computes LadderSpec |
| Analyzer.LadderMonotone | pkg/rest-api/analyzer.go:282-393 | a seed that meets more never scores lower |
| Analyzer.FullSeedScoresSix | pkg/rest-api/analyzer.go:389-393 | meeting the whole goal scores 6 |
| Analyzer.PathOps | pkg/rest-api/analyzer.go:266-270 | one path's operations, in method order, each with a goal |
| Analyzer.AllOps | pkg/rest-api/analyzer.go:262-270 | only operations that have a goal are scored |
| Analyzer.LevelsSpec | pkg/rest-api/analyzer.go:262-408 | levels exist exactly for the visited operations and lie between 2 and 6 |
| Analyzer.LevelsMeaning | pkg/rest-api/analyzer.go:262-408 | each level is the ladder against the operation's seed, or an empty seed when no response reached it |
| Analyzer.CheckFlows | pkg/rest-api/analyzer.go:424-446 | flows without paths allow level 7; an allowed 7 means every named flow is at 6 or above |
| Analyzer.Promote | pkg/rest-api/analyzer.go:422-451 | the rule changes at most the current operation, and only to 7; outside strict mode it changes nothing |
| Analyzer.Walk | pkg/rest-api/analyzer.go:412-458 | the vector has one entry per operation and keeps the level keys |
| Analyzer.WalkRange | pkg/rest-api/analyzer.go:412-458 | every vector entry lies between 2 and 7 |
| Analyzer.WalkNonStrict | pkg/rest-api/analyzer.go:412-458 | outside strict mode the vector is the ladder levels in vector order |
| Analyzer.PromoteToSeven | pkg/rest-api/analyzer.go:422-451 | in strict mode, a POST path's operation whose named flows are all at 6 or above is scored 7 |
| Analyzer.FlowsPass | pkg/rest-api/analyzer.go:424-446 | flows all at 6 or above pass the check |
| Analyzer.CoverageRange | pkg/rest-api/analyzer.go:410-465 | the vector has `methods` entries between 2 and 7, and none is 7 outside strict mode |
| Analyzer.LadderLevels | pkg/rest-api/analyzer.go:262-408 | the path loop computes LevelsSpec |
| Analyzer.PathLevels | pkg/rest-api/analyzer.go:264-406 | the method loop of one path extends LevelsSpec |
| Analyzer.FlowsAllow | pkg/rest-api/analyzer.go:424-446 | the flow loop computes CheckFlows |
| Analyzer.BuildVector | pkg/rest-api/analyzer.go:412-458 | the vector loop computes Walk |
| Analyzer.PromoteOne | pkg/rest-api/analyzer.go:422-451 | the level-7 rule for one operation, as Promote states it |
| Analyzer.WalkStep | pkg/rest-api/analyzer.go:412-458 | one more operation extends the walk by its promoted level, or ends it with the panic |
| Analyzer.WalkFails | pkg/rest-api/analyzer.go:442 | the first flow naming an operation without a level ends the scoring |
| Analyzer.CoverageLevels | pkg/rest-api/analyzer.go:56-465 | getCoverageLevels computes CoverageSpec |
| Analyzer.PointwiseMax | pkg/rest-api/analyzer.go:501-512 | each entry is the larger of the two levels |
| Analyzer.MergeStable | pkg/rest-api/analyzer.go:501-512 | merging is idempotent, and it gives back the stored vector exactly when no level went up |
| Analyzer.IsIndividualIncrease | pkg/rest-api/analyzer.go:501-512 | the flag is set exactly when some new level is above the stored one, and the new array becomes the pointwise maximum |
| Persistent.IsHexString | internal/go-fuzz/persistent.go:91-99 | true exactly when every byte is 0-9 or a-f |
| Persistent.HexDigit | internal/go-fuzz/persistent.go:84 | a nibble becomes a lower-case hex digit |
| Persistent.HexShape | internal/go-fuzz/persistent.go:84 | hex encoding is twice as long as the bytes and all lower-case hex |
| Persistent.FileNameRoundTrip | internal/go-fuzz/persistent.go:68-89 | a file the store wrote is read back with its meta number, and as not hand-made |
| Persistent.DescNameSkipped | internal/go-fuzz/persistent.go:68-72 | a description file is skipped on load |
| Persistent.ForeignNameIsUser | internal/go-fuzz/persistent.go:77 | a name that does not start with 40 hex digits is a hand-made blob with meta 0 |
| Persistent.WriteOnce | internal/go-fuzz/persistent.go:102-106 | the key is present afterwards; an existing entry is never overwritten, and a new key holds the written value |
| Persistent.LoadKeeps | internal/go-fuzz/persistent.go:64-67 | loading never changes or drops a stored blob |
| Persistent.LoadNone | internal/go-fuzz/persistent.go:50-81 | a digest no blob file of the walk has stays absent |
| Persistent.LoadFirstWins | internal/go-fuzz/persistent.go:50-81 | for a new digest, the first blob file of the walk with that digest is stored |
| Persistent.PersistentSet.constructor | internal/go-fuzz/persistent.go:40-48 | an empty store loads its directory, a walk of the files on its disk, in walk order |
| Persistent.PersistentSet.ReadInDir | internal/go-fuzz/persistent.go:50-81 | the walk loop computes LoadSpec and leaves the files alone |
| Persistent.PersistentSet.Add | internal/go-fuzz/persistent.go:102-113 | reports true exactly when the digest was new; stores it once and writes its file |
| Persistent.PersistentSet.AddDescription | internal/go-fuzz/persistent.go:116-124 | writes the description unless that file exists; blobs unchanged |
| Persistent.AddTwice | internal/go-fuzz/persistent.go:102-113 | adding the same data twice keeps the first artifact |
| Auth.QuotedBody | pkg/rest-api/token.go:38-47 | a single-quoted YAML scalar is sent without its quotes; other text is sent as is |
| Auth.ContentTypeOnlyWhenSet | pkg/rest-api/token.go:49-56 | the Content-Type header is set exactly when a type is configured, and is the only header |
| Auth.HardcodeSkipsLogin | pkg/rest-api/token.go:33-36 | a hand-written key is returned and no login answer matters |
| Auth.RejectedLogin | pkg/rest-api/token.go:65-67 | any status but 200 panics with the code in the message |
| Auth.FallbackKey | pkg/rest-api/token.go:106-117 | with no string at the key path, the key is the body without double quotes |
| Auth.FoundKey | pkg/rest-api/token.go:106-110 | a string at the key path is the key |
| Auth.GetToken | pkg/rest-api/token.go:28-125 | GetToken computes TokenSpec |
| Sender.GroupCache.constructor | pkg/rest-api/hsuanfuzz.go:379-381 | the cache starts empty |
| Sender.GroupCache.SendRequest | pkg/rest-api/sender.go:25-164 | reports Outcome and updates the cache as CacheAfter says |
| Sender.PrepareOne | pkg/rest-api/sender.go:35-102 | rendering and the bearer key give Prepared |
| Sender.RenderNode | pkg/rest-api/sender.go:35-92 | the request loop computes RenderSpec |
| Sender.RenderFails | pkg/rest-api/sender.go:35-92 | the first request that panics ends the rendering |
| Sender.ApplyOne | pkg/rest-api/sender.go:37-90 | one request's step computes ApplyRequest |
| Sender.ParamLoop | pkg/rest-api/sender.go:39-58 | the field loop computes SetParams |
| Sender.DecodeLoop | pkg/rest-api/sender.go:70-84 | the leaf loop computes DecodeLeaves |
| Sender.DecodeOne | pkg/rest-api/sender.go:71-82 | a string leaf that decodes is replaced by its decoding throughout the body; anything else leaves it |
| Sender.ParamsStayInPlace | pkg/rest-api/sender.go:39-58 | path fields touch only the path, query fields only the query, header fields only the headers |
| Sender.SlotStep | pkg/rest-api/sender.go:48-56 | a query or header field sets its own key and nothing else |
| Sender.LastFieldWins | pkg/rest-api/sender.go:48-56 | a query or header key holds the value of the last field naming it |
| Sender.UnnamedKeysKept | pkg/rest-api/sender.go:48-56 | a key no field names keeps its value, or stays absent |
| Sender.RequestRouting | pkg/rest-api/sender.go:37-90 | parameter locations never panic; JSON sets Content-Type and the body only; any other type panics with its type |
| Sender.PathTemplate | pkg/rest-api/sender.go:44-46 | a `{name}` template is replaced by the escaped value |
| Sender.EncodedQueryParam | pkg/rest-api/sender.go:41-50 | a base64-encoded parameter is sent as the escaped text it encodes |
| Sender.NothingToDecode | pkg/rest-api/sender.go:70-84 | a body with no decodable string leaf is sent as marshalled |
| Sender.BearerPlacement | pkg/rest-api/sender.go:95-102 | the key goes in the query when `in` is "query", otherwise as a "Bearer" header; an empty key adds nothing |
| Sender.Sentinel | pkg/rest-api/sender.go:109-138 | an unbuildable request gives 599 in strict mode and panics otherwise; a refused exchange gives 599; an answer gives its code |
| Sender.CacheableRange | pkg/rest-api/sender.go:148-149 | status/100 == 2 is exactly the 2xx range, with a JSON type |
| Sender.CacheWrite | pkg/rest-api/sender.go:148-156 | a cacheable answer stores its body under group and path and changes nothing else; other answers change nothing |
| Fuzzer.Servers | pkg/rest-api/hsuanfuzz.go:274-279 | every listed server is usable |
| Fuzzer.FirstUsableServer | pkg/rest-api/hsuanfuzz.go:274-287 | the first usable URL is the server |
| Fuzzer.NoUsableServer | pkg/rest-api/hsuanfuzz.go:281-283 | with no usable URL, "invalid server url" |
| Fuzzer.ChooseServer | pkg/rest-api/hsuanfuzz.go:274-287 | the server loop computes ServerSpec |
| Fuzzer.DirAsWrittenDropsSlash | pkg/rest-api/hsuanfuzz.go:298-300 | as written, "/a" is kept without a trailing slash |
| Fuzzer.DirAsWrittenAppends | pkg/rest-api/hsuanfuzz.go:298-300 | as written, "/" is appended to every directory but "/" followed by one character, which agrees with the corrected check exactly on directories that do not end in "/" |
| Fuzzer.NormalizeDirEndsInSlash | pkg/rest-api/hsuanfuzz.go:298-300 | as corrected, the directory ends in "/", gains at most that slash, and normalising is idempotent |
| Fuzzer.OpCountSorted | pkg/rest-api/hsuanfuzz.go:290-295 | sorting the paths does not change the operation count |
| Fuzzer.CountPaths | pkg/rest-api/hsuanfuzz.go:289-295 | the paths come out sorted, each once, and `methods` is their operation count |
| Fuzzer.InitDependency | pkg/rest-api/hsuanfuzz.go:404-427 | the template loop computes DefaultDependency |
| Fuzzer.TemplateShape | pkg/rest-api/hsuanfuzz.go:404-427 | the template lists every path, and exactly the POST paths get flows |
| Fuzzer.TemplateNotReady | pkg/rest-api/hsuanfuzz.go:368-374 | the untouched template is refused with "Dependency.yml is not ready yet." |
| Fuzzer.New | pkg/rest-api/hsuanfuzz.go:267-388 | fails exactly on no server, an empty directory, or a strict check; otherwise gives the server, sorted paths, count, directory and strict configuration |
| Fuzzer.CoverageString | pkg/rest-api/hsuanfuzz.go:114-120 | each level in decimal followed by a space |
| Fuzzer.LevelsWords | pkg/rest-api/hsuanfuzz.go:114-120 | the text's words are the levels' decimal forms |
| Fuzzer.LevelsRoundTrip | pkg/rest-api/hsuanfuzz.go:114-120 | the text of an int64 vector reads back as the vector |
| Fuzzer.Descriptions | pkg/rest-api/hsuanfuzz.go:211-216 | one description per type |
| Fuzzer.DescNames | pkg/rest-api/hsuanfuzz.go:212-216 | one file name per description type |
| Fuzzer.DescNamesDistinct | pkg/rest-api/hsuanfuzz.go:212-216 | a crash's five description files have five different names |
| Fuzzer.ArchivedKeeps | pkg/rest-api/hsuanfuzz.go:212-216 | archiving adds exactly the named files and keeps existing ones |
| Fuzzer.ArchivedWrites | pkg/rest-api/hsuanfuzz.go:212-216 | each new name holds its own description |
| Fuzzer.ArchiveOnlyCrashes | pkg/rest-api/hsuanfuzz.go:198-218 | without a 5xx other than 599 nothing is archived, and no file is overwritten |
| Fuzzer.ArchiveNoCrash | pkg/rest-api/hsuanfuzz.go:198-218 | answers without a crash leave the archive as it was |
| Fuzzer.ArchiveKeeps | pkg/rest-api/hsuanfuzz.go:198-218 | archived files stay, with their contents, however many crashes follow |
| Fuzzer.ArchivePrefix | pkg/rest-api/hsuanfuzz.go:189-218 | the next answer archives its crash, or nothing |
| Fuzzer.SendsAnswerEach | pkg/rest-api/hsuanfuzz.go:189-220 | every node gets one answer at its position, recording that node |
| Fuzzer.SendsFail | pkg/rest-api/hsuanfuzz.go:189-220 | a panic at one node ends the iteration |
| Fuzzer.TraceAnswers | pkg/rest-api/hsuanfuzz.go:189-220 | the answers recorded node by node are the fold of the answers over the grammar |
| Fuzzer.TraceCache | pkg/rest-api/hsuanfuzz.go:189-191 | the cache after the recorded sends is the cache fold over the same nodes |
| Fuzzer.TraceFiles | pkg/rest-api/hsuanfuzz.go:198-217 | the archive after the recorded sends is the archive fold over the same answers |
| Fuzzer.Enumerate | pkg/rest-api/hsuanfuzz.go:160-162 | map iteration yields every key once |
| Fuzzer.HsuanFuzz.constructor | pkg/rest-api/hsuanfuzz.go:379-385 | stores loaded, cache empty, coverage all zeros |
| Fuzzer.HsuanFuzz.Bootstrap | pkg/rest-api/hsuanfuzz.go:134-155 | an empty corpus gets the fresh grammar as its only entry; otherwise nothing changes |
| Fuzzer.HsuanFuzz.NextSeed | pkg/rest-api/hsuanfuzz.go:157-168 | pops the queue head; an empty queue is refilled with every corpus digest |
| Fuzzer.HsuanFuzz.Archive | pkg/rest-api/hsuanfuzz.go:198-217 | writes the five descriptions under the crash key, each once |
| Fuzzer.HsuanFuzz.SendAll | pkg/rest-api/hsuanfuzz.go:186-220 | one answer per node, the cache and crash archive folded in order |
| Fuzzer.HsuanFuzz.SendTrace | pkg/rest-api/hsuanfuzz.go:189-219 | the node loop records each send; it stops at the first panic, having answered every node otherwise |
| Fuzzer.HsuanFuzz.SendNext | pkg/rest-api/hsuanfuzz.go:189-218 | one pass of the node loop appends that node's send to the record, with its cache and archive effect |
| Fuzzer.HsuanFuzz.SendOne | pkg/rest-api/hsuanfuzz.go:191-217 | one node is sent, its answer cached, and a crash archived |
| Fuzzer.HsuanFuzz.Merge | pkg/rest-api/hsuanfuzz.go:225-240 | coverage becomes the pointwise maximum; the flag means it changed; on an increase under guidance the grammar joins the corpus |
| Fuzzer.HsuanFuzz.Prepare | pkg/rest-api/hsuanfuzz.go:134-183 | an empty corpus is seeded with the fresh grammar, or its failure returned; then as NextGrammar, on the corpus so seeded |
| Fuzzer.HsuanFuzz.NextGrammar | pkg/rest-api/hsuanfuzz.go:157-183 | the seed is the queue's head, or the queue is refilled with every corpus digest; it fails exactly when the seed does not unmarshal, a node's mutation panics or the strict-mode login fails; otherwise the grammar is the seed with every node mutated and, in strict mode, the bearer is the login's |
| Fuzzer.HsuanFuzz.Execute | pkg/rest-api/hsuanfuzz.go:185-240 | a send or scoring failure is returned; after a full send the cache holds every answer's group and the archive every crash; coverage becomes the maximum of the old vector and the score, and under guidance an increase writes the grammar into the corpus |
| Fuzzer.HsuanFuzz.Step | pkg/rest-api/hsuanfuzz.go:132-240 | one iteration: the seeded corpus, the dequeued seed, the mutated grammar and bearer as Prepare states, then the cache, archive, coverage and corpus as Execute states, with the invariant kept and no corpus entry lost or level lowered |

## Left out

- HTTP, TLS and the network: each exchange is a given function of the request. `http.NewRequest`'s error is a given function too.
- URL escaping is a given function, and the query is kept as a map, not as `query.Encode`'s text.
- Sender.LastFieldWins, Sender.BearerPlacement, Sender.ParamLoop: header names are kept as written, while Go's `http.Header.Set` canonicalises them. So a header "authorization" and the bearer's "Authorization" are two keys in the model but one in Go, where the later write wins.
- Go's map iteration order is taken as an input: field sequences, media-type sequences, the walk order and `Enumerate`.
- YAML and file I/O: files are maps from name to bytes.
  - `os.MkdirAll`, `os.RemoveAll` and the `remove` flag of `New` are not part of this model.
  - Write errors, which Go only logs, are not part of this model.
- The timestamp is a parameter, one per iteration: every crash of an iteration is stamped with it, where Go reads the clock afresh for each crash.
- Logging, printing, the `print` flag and `mapCodes` are not part of this model. `mapCodes` is only printed.
- `initializeTokenYAML` and `initializeInfoYAML` are not part of this model. Only their existence matters to `New`.
- The OpenAPI loader and the example generator are not part of this model. Examples are given as `Option` values.
- SHA-1, base64, protojson, proto marshalling, fastjson and `getJSONKeys` are given functions. So are the go-fuzz byte mutator and a node's text form.
- The infinite `Fuzz` loop is modelled as one `Step`. The loop is that step repeated.
- After a panic, the model returns a `Failure` and promises nothing about what was already updated.
- Mutator.Render: numbers are integers, rendered as `strconv.Itoa` would. `FormatFloat`'s fractional and exponent forms are not modelled.
- Mutator.SubstituteOne: the integer-or-float choice at mutator.go:284-292 is collapsed to the integer lookup.
- Mutator.SubstituteOne: the panic on a cached body that is not JSON carries the stand-in message "cannot parse JSON: " followed by the body; fastjson's own parse error, which quotes at most an excerpt, is not modelled.
- Mutator.ChooseTwo: the draws are a finite sequence. Where Go would keep drawing forever, the model reports "selection draws exhausted".
- Mutator.Render: the default case, which panics in strict mode, cannot occur, because the value kinds are closed.
- Grammar.FlowsOf: a dependency cycle makes Go recurse forever. The model reports it as a failure.
- Analyzer.IsIndividualIncrease: requires the stored vector to be at least as long as the new one. Both have `methods` entries, and Go would panic otherwise.
- Fuzzer.New: builds the directory with the corrected check (NormalizeDir), not the check as written (DirAsWritten). The two differ on a directory that ends in "/" (as written, a second slash is appended) and on "/" followed by one character (see Findings). DirAsWrittenAppends states exactly where they agree.
- Analyzer.Goal: criteria are kept as key sets rather than counting maps, since only their keys are read. A response code that is not a number counts as code 0 outside strict mode, as `Atoi` returns.
- Auth.GetToken: the YAML text of the configured body is a parameter.
- Auth.GetToken: the errors of `yaml.Marshal` and `http.NewRequest` are not modelled. Only a refused exchange, a status other than 200 and a body that is not JSON end the login with a failure.
- Persistent.PersistentSet.AddDescription: `os.Stat` is replaced by membership of the directory map.

## Findings

| source | as written | input that shows it | evidently intended | confidence | as-written member | corrected member |
|---|---|---|---|---|---|---|
| pkg/rest-api/hsuanfuzz.go:298-300 | compares `dirPath` without its last character with "/" | "/a": no slash is appended, so the title is glued to "a" | compare the last character, so every directory ends in "/" | not executed | Fuzzer.DirAsWrittenDropsSlash | Fuzzer.NormalizeDirEndsInSlash |
